/** The byte-level side of a header: the stand-alone field bounds and the layout of `extraData`. A
    header's `fieldsOk` and `extra` stand for what these make of it. */
module Fields {
  import opened Base
  import opened Vote
  import opened Headers

  const BOHR_TIME: nat := 1_727_317_200
  const GAS_LIMIT_MAX: nat := 0x7fff_ffff_ffff_ffff
  const EXTRA_MAX: nat := 102_400
  const EXTRA_VANITY: nat := 32
  const EXTRA_SEAL: nat := 65
  const VALIDATOR_BYTES: nat := 68

  type Half = b: Bytes | |b| == 16 witness seq(16, _ => 0)

  function UncleHigh(): Half {
    [0x1d, 0xcc, 0x4d, 0xe8, 0xde, 0xc7, 0x5d, 0x7a, 0xab, 0x85, 0xb5, 0x67, 0xb6, 0xcc, 0xd4, 0x1a]
  }

  function UncleLow(): Half {
    [0xd3, 0x12, 0x45, 0x1b, 0x94, 0x8a, 0x74, 0x13, 0xf0, 0xa1, 0x42, 0xfd, 0x40, 0xd4, 0x93, 0x47]
  }

  /** Hash of an empty uncle list. */
  function EmptyUncleHash(): Digest {
    UncleHigh() + UncleLow()
  }

  function TrieHigh(): Half {
    [0x56, 0xe8, 0x1f, 0x17, 0x1b, 0xcc, 0x55, 0xa6, 0xff, 0x83, 0x45, 0xe6, 0x92, 0xc0, 0xf8, 0x6e]
  }

  function TrieLow(): Half {
    [0x5b, 0x48, 0xe0, 0x1b, 0x99, 0x6c, 0xad, 0xc0, 0x01, 0x62, 0x2f, 0xb5, 0xe3, 0x63, 0xb4, 0x21]
  }

  /** Root of an empty withdrawals trie. */
  function EmptyWithdrawalsHash(): Digest {
    TrieHigh() + TrieLow()
  }

  function Zeros(n: nat): (b: Bytes)
    ensures |b| == n
  {
    seq(n, _ => 0)
  }

  // ----- stand-alone bounds -----

  /** Present and zero from London on, absent before. */
  predicate BaseFeeOk(h: Header) {
    h.baseFee == if h.number >= LONDON_BLOCK then Some(0) else None
  }

  predicate MixOk(h: Header) {
    if h.time < LORENTZ_TIME then h.mixHash == Zeros(32) else MilliTimestamp(h) / 1000 == h.time
  }

  /** `verify_unsealed_fields`, the clock and the layout aside. */
  predicate UnsealedFields(h: Header) {
    |h.extraData| <= EXTRA_MAX && h.uncles == EmptyUncleHash() && h.gasLimit <= GAS_LIMIT_MAX && h.gasUsed <= h.gasLimit &&
    BaseFeeOk(h) && MixOk(h) && (h.time >= BOHR_TIME ==> h.beaconRoot == Some(Zeros(32))) &&
    (h.withdrawalsRoot.Some? ==> h.withdrawalsRoot.value == EmptyWithdrawalsHash()) && h.nonce == Zeros(8)
  }

  // ----- extraData -----

  /** n validator records from the front. */
  function Records(b: Bytes, n: nat): (vals: seq<SealingValidator>)
    requires |b| >= n * VALIDATOR_BYTES
    ensures |vals| == n
  {
    if n == 0 then []
    else [SealingValidator(Address(b[..20]), VoteKey(b[20..68]))] + Records(b[68..], n - 1)
  }

  function RecordBytes(vals: seq<SealingValidator>): (b: Bytes)
    ensures |b| == |vals| * VALIDATOR_BYTES
  {
    if vals == [] then [] else vals[0].address.bytes + vals[0].voteKey.bytes + RecordBytes(vals[1..])
  }

  /** What lies between vanity and seal. */
  function ParseMiddle(mid: Bytes, isEpoch: bool): Option<Extra> {
    if !isEpoch then Some(Extra([], None, mid))
    else if mid == [] || mid[0] == 0 || |mid| < 1 + mid[0] * VALIDATOR_BYTES + 1 then None
    else
      var end := 1 + mid[0] * VALIDATOR_BYTES;
      Some(Extra(Records(mid[1..], mid[0]), Some(mid[end]), mid[end + 1..]))
  }

  /** `parse_extra` in the Bohr layout. */
  function ParseExtra(extra: Bytes, isEpoch: bool): Option<Extra> {
    if |extra| < EXTRA_VANITY + EXTRA_SEAL then None
    else ParseMiddle(extra[EXTRA_VANITY..|extra| - EXTRA_SEAL], isEpoch)
  }

  function MiddleBytes(x: Extra): Bytes
    requires |x.validators| <= 255 && x.turnLength.Some?
  {
    [|x.validators|] + RecordBytes(x.validators) + [x.turnLength.value] + x.attestation
  }

  lemma {:induction false} RecordsOfBytes(vals: seq<SealingValidator>, rest: Bytes)
    ensures Records(RecordBytes(vals) + rest, |vals|) == vals
  {
    if vals != [] {
      var b := RecordBytes(vals) + rest;
      var a, k := vals[0].address.bytes, vals[0].voteKey.bytes;
      assert b == a + k + (RecordBytes(vals[1..]) + rest);
      assert b[..20] == a && b[20..68] == k && b[68..] == RecordBytes(vals[1..]) + rest;
      RecordsOfBytes(vals[1..], rest);
    }
  }

  lemma {:induction false} BytesOfRecords(b: Bytes, n: nat)
    requires |b| >= n * VALIDATOR_BYTES
    ensures RecordBytes(Records(b, n)) == b[..n * VALIDATOR_BYTES]
  {
    if n > 0 {
      BytesOfRecords(b[68..], n - 1);
      var vals := Records(b, n);
      assert vals[1..] == Records(b[68..], n - 1);
      assert b[..n * 68] == b[..20] + b[20..68] + b[68..][..(n - 1) * 68];
    }
  }

  /** An epoch's middle part is read back from its bytes, and only from them. */
  lemma MiddleIff(mid: Bytes, x: Extra)
    ensures ParseMiddle(mid, true) == Some(x)
            <==> 0 < |x.validators| <= 255 && x.turnLength.Some? && mid == MiddleBytes(x)
  {
    if ParseMiddle(mid, true) == Some(x) {
      var n, end := mid[0], 1 + mid[0] * VALIDATOR_BYTES;
      BytesOfRecords(mid[1..], n);
      assert mid == [mid[0]] + mid[1..][..n * VALIDATOR_BYTES] + [mid[end]] + mid[end + 1..];
    }
    if 0 < |x.validators| <= 255 && x.turnLength.Some? && mid == MiddleBytes(x) {
      MiddleReads(x);
    }
  }

  lemma MiddleReads(x: Extra)
    requires 0 < |x.validators| <= 255 && x.turnLength.Some?
    ensures ParseMiddle(MiddleBytes(x), true) == Some(x)
  {
    var mid, n := MiddleBytes(x), |x.validators|;
    var tail := [x.turnLength.value] + x.attestation;
    assert mid[1..] == RecordBytes(x.validators) + tail;
    RecordsOfBytes(x.validators, tail);
    assert mid[1 + n * VALIDATOR_BYTES + 1..] == x.attestation;
  }

  /** The bytes between vanity and seal of what a header announces. */
  predicate Announceable(x: Extra, isEpoch: bool) {
    if isEpoch then 0 < |x.validators| <= 255 && x.turnLength.Some? else x.validators == [] && x.turnLength.None?
  }

  function ExtraBytes(x: Extra, isEpoch: bool): Bytes
    requires Announceable(x, isEpoch)
  {
    Zeros(EXTRA_VANITY) + (if isEpoch then MiddleBytes(x) else x.attestation) + Zeros(EXTRA_SEAL)
  }

  lemma ExtraReads(x: Extra, isEpoch: bool)
    requires Announceable(x, isEpoch)
    ensures ParseExtra(ExtraBytes(x, isEpoch), isEpoch) == Some(x)
    ensures |ExtraBytes(x, isEpoch)| <= |x.attestation| + 255 * VALIDATOR_BYTES + 99
  {
    var mid := if isEpoch then MiddleBytes(x) else x.attestation;
    var b := ExtraBytes(x, isEpoch);
    assert b[EXTRA_VANITY..|b| - EXTRA_SEAL] == mid;
    if isEpoch { MiddleReads(x); }
  }

  /** The derived fields are what the bytes say: the header is one the client can really be given. */
  predicate Decoded(h: Header) {
    (h.fieldsOk ==> UnsealedFields(h)) && h.extra == ParseExtra(h.extraData, IsEpoch(h.number))
  }

  /** Every header is one the client can be given. */
  ghost predicate AllDecoded(hs: seq<Header>) {
    forall i | 0 <= i < |hs| :: Decoded(hs[i])
  }
}
