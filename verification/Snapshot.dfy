/** The Parlia snapshot as a value: what each header does to it, accepted or rejected. */
module Snapshot {
  import opened Base
  import opened Vote
  import opened Headers
  import opened Lex

  /** Marks "history cleared here" in `recents`; never counted. */
  const SENTINEL: Address := Address([0, 0, 0, 0, 0, 0, 0, 0, 0, 0, 0, 0, 0, 0, 0, 0, 0, 0, 0, 0])

  datatype Pending = Pending(
    epochBlock: nat, activateAt: nat, validators: seq<Address>, voteKeys: seq<VoteKey>, turnLength: nat)

  datatype Snap = Snap(
    number: nat, hash: Hash, turnLength: nat, validators: seq<Address>, pending: Option<Pending>,
    enforceInturn: bool, recents: map<nat, Address>,
    voteSet: seq<SealingValidator>, prevVoteSet: seq<SealingValidator>, setChangedAt: nat,
    attestation: Option<VoteData>, lastMilli: Option<nat>, walkStart: nat, ancestors: seq<(nat, Hash)>)

  datatype SnapError =
    | Seal(seal: SealError)
    | NumberMismatch
    | ParentHashMismatch
    | Unauthorized
    | BadDifficulty
    | DifficultyMismatch
    | RecentlySigned
    | OutOfTurnTooEarly
    | BadExtra
    | BadVote(vote: VoteError)
    | AttestationTarget
    | AttestationTargetHash
    | AttestationSource
    | AttestationSourceHash
    | MissingEpochExtra

  /** A rejected header may still have dropped one stale `recents` entry. */
  datatype Applied = Accepted(snap: Snap) | Rejected(snap: Snap, error: SnapError)

  // ----- validators in snapshot order -----

  function InsertValidator(v: SealingValidator, s: seq<SealingValidator>): (r: seq<SealingValidator>)
    ensures |r| == |s| + 1
  {
    if s == [] || !Less(s[0].address.bytes, v.address.bytes) then [v] + s else [s[0]] + InsertValidator(v, s[1..])
  }

  /** Stable sort of the (address, key) pairs. */
  function SortValidators(vals: seq<SealingValidator>): (r: seq<SealingValidator>)
    ensures |r| == |vals|
  {
    if vals == [] then [] else InsertValidator(vals[0], SortValidators(vals[1..]))
  }

  function AddressesOf(vals: seq<SealingValidator>): (r: seq<Address>)
    ensures |r| == |vals|
  {
    seq(|vals|, i requires 0 <= i < |vals| => vals[i].address)
  }

  function KeysOf(vals: seq<SealingValidator>): (r: seq<VoteKey>)
    ensures |r| == |vals|
  {
    seq(|vals|, i requires 0 <= i < |vals| => vals[i].voteKey)
  }

  function Zip(addresses: seq<Address>, keys: seq<VoteKey>): (r: seq<SealingValidator>)
    requires |addresses| == |keys|
    ensures |r| == |keys|
  {
    seq(|keys|, i requires 0 <= i < |keys| => SealingValidator(addresses[i], keys[i]))
  }

  function NoKey(): VoteKey { VoteKey(seq(48, _ => 0)) }

  function Unkeyed(addresses: seq<Address>): seq<SealingValidator> {
    seq(|addresses|, i requires 0 <= i < |addresses| => SealingValidator(addresses[i], NoKey()))
  }

  lemma ZipUnzips(vals: seq<SealingValidator>)
    ensures Zip(AddressesOf(vals), KeysOf(vals)) == vals
  {
  }

  // ----- bootstrap -----

  datatype Checkpoint = Checkpoint(
    number: nat, hash: Hash, parentHash: Hash, stateRoot: Digest,
    sealingSet: seq<Address>, voteKeys: Option<seq<VoteKey>>)

  /** Live-regime fork table value; the chain's own is seeded afterwards. */
  const FORK_TURN_LENGTH: nat := 8

  function FromCheckpoint(cp: Checkpoint): Snap {
    var votes := if cp.voteKeys.Some? && |cp.voteKeys.value| == |cp.sealingSet|
                 then SortValidators(Zip(cp.sealingSet, cp.voteKeys.value)) else [];
    Snap(cp.number, cp.hash, FORK_TURN_LENGTH, AddressesOf(SortValidators(Unkeyed(cp.sealingSet))), None, true, map[],
         votes, [], 0, None, None, cp.number + 1, [(cp.number, cp.hash)])
  }

  /** Refused once a header has been walked; a zero is ignored. */
  function SeedTurnLength(s: Snap, turnLength: nat): Option<Snap> {
    if s.number >= s.walkStart then None
    else if turnLength > 0 then Some(s.(turnLength := turnLength))
    else Some(s)
  }

  // ----- queries -----

  function Delay(s: Snap): nat {
    MinerHistoryCheckLen(|s.validators|, s.turnLength)
  }

  function FinalizedNumber(s: Snap): nat {
    if s.attestation.Some? then s.attestation.value.sourceNumber else 0
  }

  function InturnValidator(s: Snap): Option<Address> {
    if |s.validators| == 0 || s.turnLength == 0 then None
    else Some(s.validators[(s.number + 1) / s.turnLength % |s.validators|])
  }

  function ExpectedDifficulty(s: Snap, signer: Address): nat {
    if InturnValidator(s) == Some(signer) then DIFF_IN_TURN else DIFF_NO_TURN
  }

  function LeftBound(s: Snap): nat {
    SatSub(s.number, Delay(s))
  }

  predicate Counted(s: Snap, signer: Address, b: nat) {
    b in s.recents && b > LeftBound(s) && s.recents[b] != SENTINEL && s.recents[b] == signer
  }

  /** Blocks of `recents` that `sign_recently` counts for a signer. */
  function SeenBlocks(s: Snap, signer: Address): set<nat> {
    set b | b in s.recents && Counted(s, signer, b)
  }

  /** The counter is a saturating u8, compared after each hit. */
  predicate SignRecently(s: Snap, signer: Address) {
    var seen := |SeenBlocks(s, signer)|;
    seen > 0 && (if seen < 255 then seen else 255) >= s.turnLength
  }

  predicate RecentsWindowWalked(s: Snap) {
    LeftBound(s) + 1 >= s.walkStart
  }

  predicate BackoffOk(s: Snap, h: Header) {
    var known := s.enforceInturn && s.turnLength > 0 && s.validators != [] && s.lastMilli.Some? && RecentsWindowWalked(s);
    var inturn := InturnValidator(s);
    var inturnSignedRecently := inturn.None? || SignRecently(s, inturn.value);
    if !known || inturnSignedRecently || h.difficulty != DIFF_NO_TURN then true
    else
      var parentMilli := s.lastMilli.value;
      var backoff := if parentMilli / 1000 >= LORENTZ_TIME then LORENTZ_INITIAL_BACKOFF_MS else DEFAULT_INITIAL_BACKOFF_MS;
      MilliTimestamp(h) >= SatAdd(SatAdd(parentMilli, BlockIntervalMs(h.time)), backoff)
  }

  // ----- attestations -----

  function AttestationSet(s: Snap, target: nat): seq<SealingValidator> {
    if s.setChangedAt > SatSub(target, 1) then s.prevVoteSet else s.voteSet
  }

  /** Newest entry first, as the source's reversed scan. */
  function AncestorHash(ancestors: seq<(nat, Hash)>, number: nat): Option<Hash> {
    if ancestors == [] then None
    else
      var last := ancestors[|ancestors| - 1];
      if last.0 == number then Some(last.1) else AncestorHash(ancestors[..|ancestors| - 1], number)
  }

  function CheckAttestation(c: Crypto, s: Snap, raw: Bytes, number: nat, time: nat): Result<Option<VoteData>, SnapError> {
    match DecodeAttestation(raw)
    case Err(e) => Err(BadVote(e))
    case Ok(None) => Ok(None)
    case Ok(Some(att)) =>
      var d := att.data;
      if d.sourceNumber >= d.targetNumber then Err(BadVote(SourceNotBelowTarget))
      else
        var vals := AttestationSet(s, d.targetNumber);
        var window := TargetWindow(number, time);
        var known := AncestorHash(s.ancestors, d.targetNumber);
        if vals == [] then Ok(None)
        else if !(window.0 <= d.targetNumber <= window.1) then Err(AttestationTarget)
        else if known.None? then Ok(None)
        else if known.value != d.targetHash then Err(AttestationTargetHash)
        else if s.attestation.Some? && d.sourceNumber != s.attestation.value.targetNumber then Err(AttestationSource)
        else if s.attestation.Some? && d.sourceHash != s.attestation.value.targetHash then Err(AttestationSourceHash)
        else match VerifySignature(c, att, vals)
          case Err(e) => Err(BadVote(e))
          case Ok(_) => Ok(Some(d))
  }

  /** A non-contiguous vote moves only the justified head; finality needs two in a row. */
  function AdoptAttestation(cur: Option<VoteData>, data: VoteData): VoteData {
    if cur.Some? && SatAdd(data.sourceNumber, 1) != data.targetNumber then
      cur.value.(targetNumber := data.targetNumber, targetHash := data.targetHash)
    else data
  }

  // ----- the step -----

  function Forget(s: Snap, number: nat): Snap {
    var limit := SatAdd(Delay(s), 1);
    if number >= limit then s.(recents := s.recents - {number - limit}) else s
  }

  function EpochPending(s: Snap, h: Header, x: Extra): Pending {
    var vals := SortValidators(x.validators);
    var turn := if x.turnLength.Some? then x.turnLength.value else s.turnLength;
    Pending(h.number, h.number + Delay(s), AddressesOf(vals), KeysOf(vals), turn)
  }

  /** BEP-524: history at or below the finalized block no longer counts. */
  function PruneFinalized(recents: map<nat, Address>, finalized: nat): map<nat, Address> {
    map b | b in recents && b > finalized :: recents[b]
  }

  function EpochKey(number: nat): nat {
    SatSub(U64 - 1, number / EPOCH_LENGTH)
  }

  /** BEP-404: the set switch clears the sealer history. */
  function Activate(s: Snap, number: nat): Snap {
    if s.pending.None? || number != s.pending.value.activateAt then s
    else
      var p := s.pending.value;
      s.(prevVoteSet := s.voteSet,
         voteSet := if |p.voteKeys| == |p.validators| then Zip(p.validators, p.voteKeys) else [],
         setChangedAt := number, validators := p.validators, turnLength := p.turnLength, pending := None,
         recents := map[EpochKey(number) := SENTINEL])
  }

  function PushAncestor(ancestors: seq<(nat, Hash)>, a: (nat, Hash)): seq<(nat, Hash)> {
    var all := ancestors + [a];
    if |all| > K_ANCESTOR_GENERATION_DEPTH then all[|all| - K_ANCESTOR_GENERATION_DEPTH..] else all
  }

  /** Announce, adopt, record and prune, in that order. */
  function Record(s: Snap, h: Header, x: Extra, signer: Address, adopted: Option<VoteData>): Snap {
    var s1 := if IsEpoch(h.number) then s.(pending := Some(EpochPending(s, h, x))) else s;
    var s2 := if adopted.Some? then s1.(attestation := Some(AdoptAttestation(s1.attestation, adopted.value))) else s1;
    var s3 := s2.(recents := s2.recents[h.number := signer]);
    if h.time >= MAXWELL_TIME then s3.(recents := PruneFinalized(s3.recents, FinalizedNumber(s3))) else s3
  }

  function Advance(s: Snap, h: Header): Snap {
    s.(number := h.number, hash := h.hash, ancestors := PushAncestor(s.ancestors, (h.number, h.hash)),
       lastMilli := Some(MilliTimestamp(h)))
  }

  /** Everything that changes once the header has passed every check. */
  function Commit(s: Snap, h: Header, x: Extra, signer: Address, adopted: Option<VoteData>): Snap {
    Advance(Activate(Record(s, h, x, signer, adopted), h.number), h)
  }

  /** The checks before any state is touched. */
  function EarlyError(s: Snap, h: Header, signer: Address): Option<SnapError> {
    if h.number != s.number + 1 then Some(NumberMismatch)
    else if h.parentHash != s.hash then Some(ParentHashMismatch)
    else if signer !in s.validators then Some(Unauthorized)
    else if h.difficulty != DIFF_NO_TURN && h.difficulty != DIFF_IN_TURN then Some(BadDifficulty)
    else if s.enforceInturn && h.difficulty != ExpectedDifficulty(s, signer) then Some(DifficultyMismatch)
    else None
  }

  /** The checks after the stale entry is gone, up to the attestation's verdict. */
  function LateCheck(c: Crypto, s: Snap, h: Header, signer: Address): Result<(Extra, Option<VoteData>), SnapError> {
    if SignRecently(s, signer) then Err(RecentlySigned)
    else if !BackoffOk(s, h) then Err(OutOfTurnTooEarly)
    else if h.extra.None? then Err(BadExtra)
    else match CheckAttestation(c, s, h.extra.value.attestation, h.number, h.time)
      case Err(e) => Err(e)
      case Ok(adopted) =>
        if IsEpoch(h.number) && h.extra.value.validators == [] then Err(MissingEpochExtra)
        else Ok((h.extra.value, adopted))
  }

  function ApplyVerified(c: Crypto, s: Snap, h: Header, signer: Address): Applied {
    match EarlyError(s, h, signer)
    case Some(e) => Rejected(s, e)
    case None =>
      var s1 := Forget(s, h.number);
      match LateCheck(c, s1, h, signer)
      case Err(e) => Rejected(s1, e)
      case Ok((x, adopted)) => Accepted(Commit(s1, h, x, signer, adopted))
  }

  function ApplyHeader(c: Crypto, s: Snap, h: Header): Applied {
    match VerifySealCoinbase(c.keccak, h)
    case Err(e) => Rejected(s, Seal(e))
    case Ok(signer) => ApplyVerified(c, s, h, signer)
  }

  /** The vote a header makes the snapshot adopt, as a list of at most one. */
  function AdoptedBy(c: Crypto, s: Snap, h: Header): seq<VoteData> {
    if ApplyHeader(c, s, h).Rejected? then []
    else match LateCheck(c, Forget(s, h.number), h, h.miner)
      case Ok((_, Some(d))) => [d]
      case _ => []
  }

  // ----- bootstrap epoch state -----

  datatype EpochSeed =
    | Active(epochBlock: nat, turnLength: nat)
    | PendingActivation(epochBlock: nat, activateAt: nat)
    | SeedError

  /** Which epoch state the chain already holds at a checkpoint, from the two newest epoch headers. */
  function EpochSeedAt(checkpoint: nat, epoch: Header, prev: Header): EpochSeed {
    if epoch.number != prev.number + EPOCH_LENGTH then SeedError
    else if checkpoint < epoch.number || checkpoint - epoch.number >= EPOCH_LENGTH then SeedError
    else if !IsEpoch(epoch.number) || epoch.extra.None? || epoch.extra.value.validators == [] then SeedError
    else if prev.extra.None? || prev.extra.value.validators == [] then SeedError
    else
      var turn := if epoch.extra.value.turnLength.Some? then epoch.extra.value.turnLength.value else FORK_TURN_LENGTH;
      var prevTurn := if prev.extra.value.turnLength.Some? then prev.extra.value.turnLength.value else FORK_TURN_LENGTH;
      var activateAt := SatAdd(epoch.number, MinerHistoryCheckLen(|prev.extra.value.validators|, prevTurn));
      if checkpoint >= activateAt then Active(epoch.number, turn)
      else PendingActivation(epoch.number, activateAt)
  }
}
