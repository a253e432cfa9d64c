/** Decoded BSC headers, their hash, and the checks that need no snapshot. */
module Headers {
  import opened Base
  import opened Vote
  import Rlp

  const LONDON_BLOCK: nat := 31_302_048
  const LORENTZ_TIME: nat := 1_745_903_100
  const MAXWELL_TIME: nat := 1_751_250_600
  const FERMI_TIME: nat := 1_768_357_800

  const DIFF_IN_TURN: nat := 2
  const DIFF_NO_TURN: nat := 1
  const MAX_TURN_LENGTH: nat := 64
  const EPOCH_LENGTH: nat := 1000
  const K_ANCESTOR_GENERATION_DEPTH: nat := 3

  const MIN_GAS_LIMIT: nat := 5000
  const GAS_LIMIT_BOUND_DIVISOR: nat := 1024
  const GAS_LIMIT_BOUND_DIVISOR_PRE_LORENTZ: nat := 256
  const LORENTZ_INITIAL_BACKOFF_MS: nat := 2000
  const DEFAULT_INITIAL_BACKOFF_MS: nat := 1000

  /** Parsed `extraData`. Validators and turn length are present on epoch headers only. */
  datatype Extra = Extra(validators: seq<SealingValidator>, turnLength: Option<Byte>, attestation: Bytes)

  /** The 21 hashed fields, the hash the upstream claims, and what foreign or byte-level code makes
      of the header: the recovered signer, the stand-alone field bounds, and the parsed extra. */
  datatype Header = Header(
    parentHash: Hash, uncles: Digest, miner: Address, stateRoot: Digest, transactionsRoot: Digest,
    receiptsRoot: Digest, logsBloom: Bytes, difficulty: Word, number: Word, gasLimit: Word, gasUsed: Word,
    time: Word, extraData: Bytes, mixHash: Digest, nonce: Bytes,
    baseFee: Option<Word>, withdrawalsRoot: Option<Digest>, blobGasUsed: Option<Word>,
    excessBlobGas: Option<Word>, beaconRoot: Option<Digest>, requestsHash: Option<Digest>,
    hash: Hash,
    recovered: Option<Address>, fieldsOk: bool, extra: Option<Extra>)

  function SatAdd(a: nat, b: nat): nat { if a + b < U64 then a + b else U64 - 1 }
  function SatSub(a: nat, b: nat): nat { if b <= a then a - b else 0 }

  // ----- header hash -----

  function UintItem(n: nat): Rlp.Item { Rlp.Str(ToBe(n)) }

  function OptUint(n: Option<Word>): Rlp.Item {
    match n
    case None => Rlp.Str([])
    case Some(x) => UintItem(x)
  }

  function OptHash(h: Option<Digest>): Rlp.Item {
    match h
    case None => Rlp.Str([])
    case Some(d) => Rlp.Str(d)
  }

  /** Optional fields run from the first through the last one present. */
  function OptionalItems(h: Header): seq<Rlp.Item> {
    var items := [OptUint(h.baseFee), OptHash(h.withdrawalsRoot), OptUint(h.blobGasUsed),
                  OptUint(h.excessBlobGas), OptHash(h.beaconRoot), OptHash(h.requestsHash)];
    if h.requestsHash.Some? then items
    else if h.beaconRoot.Some? then items[..5]
    else if h.excessBlobGas.Some? then items[..4]
    else if h.blobGasUsed.Some? then items[..3]
    else if h.withdrawalsRoot.Some? then items[..2]
    else if h.baseFee.Some? then items[..1]
    else []
  }

  function HashedItem(h: Header): Rlp.Item {
    Rlp.List([Rlp.Str(h.parentHash.bytes), Rlp.Str(h.uncles), Rlp.Str(h.miner.bytes), Rlp.Str(h.stateRoot),
              Rlp.Str(h.transactionsRoot), Rlp.Str(h.receiptsRoot), Rlp.Str(h.logsBloom),
              UintItem(h.difficulty), UintItem(h.number), UintItem(h.gasLimit), UintItem(h.gasUsed),
              UintItem(h.time), Rlp.Str(h.extraData), Rlp.Str(h.mixHash), Rlp.Str(h.nonce)]
             + OptionalItems(h))
  }

  function Preimage(h: Header): Bytes {
    Rlp.Enc(HashedItem(h))
  }

  /** Two headers with one preimage have one parent and one number. */
  lemma PreimageNamesParent(a: Header, b: Header)
    requires |Preimage(a)| < U64 && Preimage(a) == Preimage(b)
    ensures a.parentHash == b.parentHash && a.number == b.number
  {
    Rlp.EncInjective(HashedItem(a), HashedItem(b));
    var x, y := HashedItem(a).items, HashedItem(b).items;
    assert x[0] == y[0] && x[8] == y[8];
    BeRoundTrip(a.number);
    BeRoundTrip(b.number);
  }

  // ----- timing and seal -----

  function MilliTimestamp(h: Header): nat {
    var base := if h.time * 1000 < U64 then h.time * 1000 else U64 - 1;
    if h.time < LORENTZ_TIME then base else SatAdd(base, FromBe(h.mixHash[30..]))
  }

  function BlockIntervalMs(time: nat): nat {
    if time >= FERMI_TIME then 450
    else if time >= MAXWELL_TIME then 750
    else if time >= LORENTZ_TIME then 1500
    else 3000
  }

  datatype SealError = BadFields | BadLayout | BadDifficultyRange | RecoverFailed | CoinbaseMismatch | HashMismatch

  predicate IsEpoch(number: nat) {
    number % EPOCH_LENGTH == 0
  }

  predicate DistinctAddresses(vals: seq<SealingValidator>) {
    forall i, j | 0 <= i < j < |vals| :: vals[i].address != vals[j].address
  }

  /** Live-regime layout: an epoch header names distinct validators and a turn length of 1..64. */
  predicate LayoutOk(h: Header) {
    h.extra.Some? &&
    (IsEpoch(h.number) ==>
       h.extra.value.validators != [] && DistinctAddresses(h.extra.value.validators) &&
       h.extra.value.turnLength.Some? && 0 < h.extra.value.turnLength.value <= MAX_TURN_LENGTH)
  }

  function VerifySealCoinbase(keccak: Hasher, h: Header): Result<Address, SealError> {
    if !h.fieldsOk then Err(BadFields)
    else if !LayoutOk(h) then Err(BadLayout)
    else if h.difficulty != DIFF_NO_TURN && h.difficulty != DIFF_IN_TURN then Err(BadDifficultyRange)
    else if h.recovered.None? then Err(RecoverFailed)
    else if h.recovered.value != h.miner then Err(CoinbaseMismatch)
    else if keccak(Preimage(h)) != h.hash.bytes then Err(HashMismatch)
    else Ok(h.miner)
  }

  /** Ramanujan floor and gas-limit bound against the parent; a zero parent gas limit means the
      parent's fields are unknown. */
  predicate CascadingOk(parentMilli: nat, parentGasLimit: nat, h: Header) {
    parentGasLimit == 0 ||
    (MilliTimestamp(h) >= SatAdd(parentMilli, BlockIntervalMs(h.time)) &&
     h.gasLimit >= MIN_GAS_LIMIT &&
     (var divisor := if h.time >= LORENTZ_TIME then GAS_LIMIT_BOUND_DIVISOR else GAS_LIMIT_BOUND_DIVISOR_PRE_LORENTZ;
      var diff := if parentGasLimit >= h.gasLimit then parentGasLimit - h.gasLimit else h.gasLimit - parentGasLimit;
      diff < parentGasLimit / divisor))
  }

  // ----- protocol arithmetic -----

  /** a * b, as repeated addition: keeps proofs about histories linear. */
  function Times(a: nat, b: nat): nat {
    if a == 0 then 0 else Times(a - 1, b) + b
  }

  lemma {:induction false} TimesIsProduct(a: nat, b: nat)
    ensures Times(a, b) == a * b
  {
    if a > 0 { TimesIsProduct(a - 1, b); }
  }

  /** (nSeal/2 + 1) * turnLength - 1. */
  function MinerHistoryCheckLen(nSeal: nat, turnLength: nat): nat {
    if nSeal == 0 || turnLength == 0 then 0 else Times(nSeal / 2 + 1, turnLength) - 1
  }

  /** Lowest and highest block an attestation in this header may target. */
  function TargetWindow(number: nat, time: nat): (nat, nat) {
    var parent := SatSub(number, 1);
    var depth := if number >= LONDON_BLOCK && time >= FERMI_TIME then K_ANCESTOR_GENERATION_DEPTH else 1;
    (SatSub(parent, depth - 1), parent)
  }
}
