# helios-bsc, verified

A Dafny model of the parts of helios-bsc, a Parlia light client for BNB Smart Chain, that its guarantees
rest on, with proofs over every input, every run and every interleaving. `dafny verify dfyconfig.toml` checks it.

The model works in the live regime: headers at or after Maxwell, so epochs are 1000 blocks and epoch extra data
has the Bohr layout. keccak256, seal recovery and BLS verification are arbitrary functions; no theorem assumes a
hash is injective. Where a result depends on hashes it says which two byte strings of the computation would collide.
What an upstream answers is an arbitrary value, so run theorems cover a lying upstream. The one premise on answers is
that `headers_range` returns exactly the headers asked for when it returns any; only `Publish.ResyncRaises`,
`Publish.PublishedHeadMonotone` and the boot tip in `Node.BootHolds` and `Publish.BootStarts` need it.

**Authenticated data** (`Rlp`, `HexPrefix`, `Lex`, `Trie`, `Proof`, `TrieProof`, `OrderedTrie`). One trie datatype
is built by the recursive definition, encoded by the loops of the ordered-trie builder and read by the EIP-1186
walker. Builder and walker agree on every map from 64-nibble keys, storage proofs answer exactly, accepted proofs are
unique, and a root admits one list.

**Consensus snapshot** (`Vote`, `Headers`, `Snapshot`, `Runs`, `Epochs`, `VoteSets`, `TwoChain`, `Recents`,
`Diversity`, `Validators`, `Turns`, `Schedule`, `Fields`, `HeaderHash`, `Adoption`, `Verdict`, `Accountable`,
`Honest`, `Finalizing`, `Witness`, `SnapshotObject`). `Snapshot.ApplyHeader` is the step as a value; the class
`SnapshotObject.Snapshot` performs it field by field. `Runs.FeedIsRun` shows that feeding any headers at all is a
sequence of legal moves, and the other modules prove invariants of those: the small bounded state answers as the full
history would. `Adoption` and `Verdict` say exactly which votes are adopted and which headers accepted, in terms of
the walked chain alone. `Accountable` adds the safety of two clients. `Schedule` shows that a header sealed in turn is
refused for its attestation or not at all. `Honest` and `Witness` build accepted runs, for any crypto, that reach each
exception below; `Fields` makes sure that their headers are ones the client can decode.

**Sync, reorg and publish** (`Finality`, `Sync`, `Engine`, `Node`, `Progress`, `Refusals`, `Retention`, `Pacing`,
`Served`, `Committed`, `Publish`, `Refreshing`, `Lookback`, `Windows`, `NodeObject`). `Sync.Follows` says that chain
and snapshot describe one branch; every append, rewind and replay keeps it, `Progress` and `Refusals` say exactly when
each succeeds and with which error it fails, and `Committed` what two clients on one hash have in common. `Publish`
interleaves any number of threads around the chain lock. `NodeObject.Node` performs the same steps on mutable fields.

What the proofs show that the code's comments do not say:

- `TrieProof.HonestProofAcceptedIff`: the builder always hashes its root while the walker compares a node under 32
  bytes unhashed, so an honest proof of a tiny trie is refused. With 64-nibble keys only the empty map is that small
  (`EmptyTrieRefused`, `BuilderAndWalkerAgree`); `StorageProofsAnswer` shows that the storage check, which answers for
  the empty root itself, has no such gap.
- `VoteSets.OneGenerationExact`: one generation of vote keys is enough up to a minerHistoryCheckLen of 997, and the
  exact condition beyond that; `Witness.GenerationMissed` is an honest run at 998 that fails it. From 1000 on
  (`LongDelayFreezesTheSet`) each epoch header overwrites the pending switch before it is due and the set is frozen.
- `TwoChain.TwoChainFinality`: the source of the first adopted attestation is taken on the quorum's word; every later
  finalized head is a walked block. `Accountable.HighVoteConflictsIff` is why accountable safety asks that a client
  started to justify below the block in question.
- `Recents.SignRecentlyRefines`: the all-zero address is the history's sentinel and never counts, so as a validator it
  would escape the limit and, alone, fill a quiet window (`Witness.SentinelEscapes`, from `SentinelStart` for one). No
  key is known to recover to it; the code does not exclude it from a validator set.
- `Sync.StaleIff`: a refused header can leave the snapshot one history entry short of the fold, and
  `Witness.StaleSnapshot` shows a later call that sees no header succeed with it; `Runs.RejectionsHarmless` shows that
  no verdict depends on it.
- `Witness.EarlyForkMissed`: an append checks timing before the parent link, so a fork whose next header is too early
  for the held tip does not look like a reorg. `Progress.LinkBreakIff` and `RecoverOkIff` are the exact conditions;
  until they are met nothing retained is tried (`EarlyForkStays`). Without a checkpoint the link is checked first
  (`Windows.VerifyIff`).
- `Lookback.AcceptsIff`: an empty replacement window is accepted unconditionally; `Publish.RewindLowersIff`: a rewind
  lowers the head exactly when its reply is shorter than the blocks given up; `Node.BootHolds`: the boot publishes a tip
  that no block backs only when the walk's reply stopped short of it, and does so then unless later polls reach it.

## Model

| member | source | states |
|---|---|---|
| Rlp.DecodeTopIff | crates/helios-bsc-consensus/src/vote.rs:284-362 | The strict reader accepts a buffer if and only if it is the encoding of an item nested no deeper than allowed, and returns that item. |
| Rlp.DecodeComplete | crates/helios-bsc-consensus/src/rlp_util.rs:3-61 | Every item within the nesting limit decodes back from its encoding, whatever bytes follow, and leaves exactly those bytes. |
| Rlp.DecodeSound | crates/helios-bsc-execution/src/rlp.rs:31-110 | Whatever the decoder accepts re-encodes to exactly the bytes it consumed. |
| Rlp.EncInjective | crates/helios-bsc-consensus/src/rlp_util.rs:10-61 | No byte string spells two items and no item has two spellings. |
| Rlp.EncPrefixFree | crates/helios-bsc-consensus/src/rlp_util.rs:10-61 | No item's encoding starts another item's. |
| Rlp.DepthLimits | crates/helios-bsc-execution/src/rlp.rs:31-110 | Lists nested in lists decode as a vote up to depth 2 and as a trie node up to depth 32, and no deeper. |
| Rlp.ReadBe | crates/helios-bsc-consensus/src/vote.rs:339-356 | The accumulating length loop computes the big-endian value. |
| Rlp.ConcatLoop | crates/helios-bsc-consensus/src/rlp_util.rs:36-55 | The concatenation loop of the list encoder yields the joined member encodings. |
| Rlp.DecodeListLoop | crates/helios-bsc-consensus/src/vote.rs:324-337 | The list loop splits a payload exactly as the recursive definition does, or fails where it fails. |
| HexPrefix.DecodeIff | crates/helios-bsc-execution/src/mpt.rs:259-288 | A path is accepted if and only if it is the hex-prefix encoding of the returned nibbles and leaf flag. |
| HexPrefix.EncodeAt | crates/helios-bsc-execution/src/ordered_trie.rs:100-114 | Byte by byte: 0x20 marks a leaf, 0x10 and the first nibble an odd length, and every other byte holds two nibbles. |
| HexPrefix.BytesToNibblesLoop | crates/helios-bsc-execution/src/mpt.rs:236-244 | The loop yields the two nibbles of each byte in order. |
| HexPrefix.EncodeLoop | crates/helios-bsc-execution/src/ordered_trie.rs:100-114 | The hex-prefix loop computes the encoding that DecodeIff inverts. |
| Trie.GroupShrinks | crates/helios-bsc-execution/src/ordered_trie.rs:36-82 | Once nothing more is shared, each of the 16 runs is strictly smaller than the slice: the split makes progress and the builder ends. |
| Trie.BuildWellFormed | crates/helios-bsc-execution/src/ordered_trie.rs:36-82 | Every extension leads to a branch, every branch has sixteen children, and several entries that share nothing more make a branch. |
| Trie.LookupBuild | crates/helios-bsc-execution/src/ordered_trie.rs:36-82 | Reading a key from the built trie gives exactly the listed value or absence: the 16-way split covers every pair. |
| Proof.AcceptedProofsUnique | crates/helios-bsc-execution/src/mpt.rs:59-166 | Two accepted proofs for one root and key are the same node list with the same answer, or hold two colliding nodes at one position. |
| Proof.WrappedNodeShrinks | crates/helios-bsc-execution/src/mpt.rs:139-166 | A node spelled inside a string is smaller than that string, so the walk terminates. |
| TrieProof.BuilderAndWalkerAgree | crates/helios-bsc-execution/src/mpt.rs:59-166 | For every map from 64-nibble keys, the nodes on a key's path are accepted against the builder's root if and only if the map is not empty, and then answer as the map does, value or absence, inlined nodes included. |
| TrieProof.AcceptedProofTellsTheMap | crates/helios-bsc-execution/src/mpt.rs:67-166 | Any accepted proof against the root of any map, the empty one included, gives the map's answer or collides with the honest proof at some position. |
| TrieProof.EmptyTrieRefused | crates/helios-bsc-execution/src/mpt.rs:79-93 | The one byte that is the empty trie's root node, offered as its proof, ends in a hash mismatch. |
| TrieProof.HonestProofAcceptedIff | crates/helios-bsc-execution/src/mpt.rs:67-93 | For keys of any length, no entries included, the honest proof is accepted if and only if the root node has 32 bytes and the key stops inside the trie. |
| TrieProof.StorageProofsAnswer | crates/helios-bsc-execution/src/mpt.rs:189-219 | Every storage map, the empty one included, is answered exactly by its honest proofs: the word of a set slot, zero for any other; or the root collides with the empty trie's. |
| TrieProof.StorageProofsAreSound | crates/helios-bsc-execution/src/mpt.rs:189-219 | Any word a storage proof establishes is the map's, or two named byte strings collide. |
| TrieProof.StorageLeafIff | crates/helios-bsc-execution/src/mpt.rs:189-219 | A proven leaf gives word w if and only if it is exactly the RLP string of w, at most 32 bytes; any other leaf is refused as a bad one. |
| TrieProof.RootIsLarge | crates/helios-bsc-execution/src/mpt.rs:228-234 | With 64-nibble keys the root node is never under 32 bytes, so it is always compared by hash. |
| OrderedTrie.RootCommitsToList | crates/helios-bsc-execution/src/ordered_trie.rs:21-90 | Equal roots of two lists of at most 4096 items mean equal lists, or a collision on some index's path. |
| OrderedTrie.OneListPerRoot | crates/helios-bsc-execution/src/tx_list.rs:19-30 | A transactions root admits one list among all those an upstream may offer, or a collision. |
| OrderedTrie.IndexAnswers | crates/helios-bsc-execution/src/ordered_trie.rs:21-34 | For any list of at most 4096 items and any index i, the nodes on the path of the nibbles of the RLP string of i are accepted against the root and give item i, or None from the length on; only a root node under 32 bytes is refused. |
| OrderedTrie.TxListIff | crates/helios-bsc-execution/src/tx_list.rs:19-34 | A list is answered for a root if and only if it has at most 4096 items and that root; the answer is each item's own hash, in order. |
| OrderedTrie.BindTxList | crates/helios-bsc-execution/src/tx_list.rs:19-34 | The method answers as that check does, the cap before any trie work. |
| OrderedTrie.KeysPrefixFree | crates/helios-bsc-execution/src/ordered_trie.rs:21-34 | No index key starts another, so no value is lost in a branch slot. |
| OrderedTrie.EncodeNode | crates/helios-bsc-execution/src/ordered_trie.rs:36-82 | The recursive encoder over a sorted slice yields the encoding of the built trie. |
| OrderedTrie.EncodeSlots | crates/helios-bsc-execution/src/ordered_trie.rs:59-80 | The branch loop moving `begin` pushes, slot by slot, the references of the 16 children. |
| OrderedTrie.SharedLoop | crates/helios-bsc-execution/src/ordered_trie.rs:92-97 | The fold over the slice computes the common prefix length of all its keys. |
| OrderedTrie.OrderedTrieRoot | crates/helios-bsc-execution/src/ordered_trie.rs:21-34 | The whole computation yields the root the commitment theorem is about. |
| Vote.DecodeAttestationIff | crates/helios-bsc-consensus/src/vote.rs:130-165 | Bytes decode to an attestation if and only if they are its encoding: each attestation has one spelling. |
| Vote.VotedIndicesExact | crates/helios-bsc-consensus/src/vote.rs:241-265 | The bit set is accepted if and only if every set bit is below n; the indices are those bits, increasing, as many as the popcount. |
| Vote.QuorumIntersection | crates/helios-bsc-consensus/src/vote.rs:122-239 | Two attestations accepted over the same n validators share at least 2*ceil(2n/3)-n voters, at least a third. |
| Headers.PreimageNamesParent | crates/helios-bsc-consensus/src/seal.rs:204-265 | Two headers with one hash preimage have one parent hash and one number. |
| HeaderHash.PreimageIff | crates/helios-bsc-consensus/src/seal.rs:204-265 | Two headers have one hash preimage if and only if all 15 mandatory fields agree, as many optional ones are spelled, and those agree up to an absent number read as zero. |
| Committed.BootedGenuine | bin/helios-bsc/src/sync.rs:302-355 | From boot on, every block held is the header that hashes to its hash: its number, state root, sealer, clock and gas limit. |
| Committed.OneChainPerTip | crates/helios-bsc-consensus/src/seal.rs:204-265 | Two such chains that end on one hash agree block by block, in every field, as far down as both reach, or two of their headers collide. |
| Committed.OneTipOneRoot | bin/helios-bsc/src/sync.rs:223-244 | Two clients, booted and fed anything: one tip hash means one confirmation-depth block, state root included, and one block at a common read height; one served hash means one state root; or two headers collide. |
| Headers.TimesIsProduct | crates/helios-bsc-config/src/lib.rs:269-274 | The repeated sum used for minerHistoryCheckLen is the product. |
| Validators.SortPermutes | crates/helios-bsc-consensus/src/snapshot.rs:686-706 | Sorting the pairs loses no validator, adds none and keeps every key with its address. |
| Validators.SortIncreasing | crates/helios-bsc-consensus/src/snapshot.rs:686-706 | Distinct addresses come out strictly increasing. |
| Validators.CheckpointAligned | crates/helios-bsc-consensus/src/snapshot.rs:239-287 | A checkpoint with distinct sealers boots with addresses and vote keys in one strict order, whatever order it lists them in. |
| Validators.CheckpointKept | crates/helios-bsc-consensus/src/snapshot.rs:239-287 | A checkpoint boots with exactly its sealers and exactly its pairs of sealer and key, on its block, nothing walked. |
| Validators.AlignedAlways | crates/helios-bsc-consensus/src/snapshot.rs:686-760 | In every state of every run, bit i of an attestation over the current set names validator i. |
| Turns.TurnSlot | crates/helios-bsc-consensus/src/snapshot.rs:509-516 | Validator i is in turn for the next block if and only if that block lies in its slot of some round. |
| Turns.OneSlot | crates/helios-bsc-consensus/src/snapshot.rs:509-516 | Every height lies in exactly one slot: one round, one validator, one offset. |
| Turns.DifficultyTellsTurn | crates/helios-bsc-consensus/src/snapshot.rs:651-663 | An accepted header at height (r*n+i)*turnLength+o has difficulty 2 if and only if validator i sealed it, else 1. |
| Verdict.SignerTellsTurn | crates/helios-bsc-consensus/src/snapshot.rs:651-663 | The same for the address the seal recovers to. |
| Turns.OutOfTurnWaits | crates/helios-bsc-consensus/src/seal.rs:629-666 | Once the history window is walked, an accepted out-of-turn header is later than its parent by interval and backoff, unless the in-turn validator has used up its blocks. |
| Runs.BootstrapIsFresh | crates/helios-bsc-consensus/src/snapshot.rs:239-310 | A checkpoint snapshot, seeded or not, is a start state of every run theorem. |
| Runs.RejectionHarmless | crates/helios-bsc-consensus/src/snapshot.rs:628-775 | After a rejected header every later header gets the same verdict, and an accepted one the same state. |
| Runs.RejectionsHarmless | crates/helios-bsc-consensus/src/snapshot.rs:628-775 | Feeding any headers is feeding only the accepted ones: same state up to the entry about to leave, same votes. |
| Runs.ResidueKeepsCounts | crates/helios-bsc-consensus/src/snapshot.rs:530-546 | The one entry a rejection may remove is outside the window that is counted. |
| Runs.FeedIsRun | crates/helios-bsc-consensus/src/snapshot.rs:628-775 | Every run of the client on any headers is a run of legal moves through the same states, walked headers and votes. |
| Runs.SpineAlways | crates/helios-bsc-consensus/src/snapshot.rs:759-765 | In every state the walked chain is consecutive and parent-linked and the ring holds exactly its newest three blocks. |
| Runs.AncestorIsBlock | crates/helios-bsc-consensus/src/snapshot.rs:423-429 | A lookup succeeds exactly inside the ring and returns the walked block's hash. |
| Runs.TargetNeverMissed | crates/helios-bsc-config/src/lib.rs:170-174 | After two walked headers every target of the attestation window is found. |
| Epochs.ActivationExact | crates/helios-bsc-consensus/src/snapshot.rs:686-757 | At every height the active set, turn length and vote set are those of the newest walked epoch block whose delay has passed, else the checkpoint's; a switch is pending exactly when the newest is not yet in force. |
| VoteSets.OneGenerationExact | crates/helios-bsc-consensus/src/snapshot.rs:414-420 | The set used for a target is the one held after block target-1 if and only if that block is not older than the second newest activation, or the two oldest sets coincide. |
| VoteSets.OneGenerationEnough | crates/helios-bsc-consensus/src/snapshot.rs:204-217 | With delays of at most 997, in every run and for every target in the window, the set used is the vote set held right after block target-1. |
| VoteSets.LongDelayFreezesTheSet | crates/helios-bsc-consensus/src/snapshot.rs:686-757 | Once the delay of the set in force reaches a whole epoch, at any point of any run, the validator set never changes again. |
| Witness.GenerationMissed | crates/helios-bsc-consensus/src/snapshot.rs:204-217 | At a delay of 998, whatever the crypto, a run of accepted, decodable headers sealed in turn reaches a state that checks a target of the window against other keys than were held after block target-1. |
| VoteSets.SeedMatchesWalk | crates/helios-bsc-consensus/src/snapshot.rs:152-190 | For a snapshot that walked both newest epoch headers, reading them back reports Active or Pending with the turn length or height it holds. |
| VoteSets.SeedIff | crates/helios-bsc-consensus/src/snapshot.rs:152-190 | The epoch state of a checkpoint is told exactly from its two newest epoch headers: active once (n/2+1)*turnLength-1 blocks of the older set have passed, else pending until that height. |
| TwoChain.FinalityRises | crates/helios-bsc-consensus/src/snapshot.rs:371-379 | Adopting a vote strictly raises the justified head, anything else leaves it, and the finalized head never falls. |
| TwoChain.FinalizedMonotone | crates/helios-bsc-consensus/src/snapshot.rs:350-379 | The finalized number never falls over a run. |
| TwoChain.TwoChainFinality | crates/helios-bsc-consensus/src/snapshot.rs:437-492 | Justified is at most number-1 and finalized at most number-2, the justified head is a walked block, and every finalized head after the first adopted source is a walked F with F and F+1 both targets of adopted votes. |
| TwoChain.ConflictNeedsDoubleVoters | crates/helios-bsc-consensus/src/snapshot.rs:437-492 | Any two votes adopted over one validator set were both signed by a third of it. |
| Adoption.BitsAreDigits | crates/helios-bsc-consensus/src/vote.rs:241-265 | The voters are the positions of the ones in the binary digits of the bit set. |
| Adoption.SignatureIff | crates/helios-bsc-consensus/src/vote.rs:167-239 | A vote is signed if and only if its extra is at most 256 bytes, its ones lie below n and are at least 2n/3 rounded up, their keys are valid and the aggregate verifies over exactly those keys and the hash of the vote data. |
| Adoption.AdoptedIff | crates/helios-bsc-consensus/src/snapshot.rs:437-492 | A vote is adopted if and only if the bytes are the encoding of an attestation whose source is below its target, whose target is the walked block at a height of the window, whose source is the justified head when there is one, and which is so signed. |
| Adoption.PassedOverIff | crates/helios-bsc-consensus/src/snapshot.rs:437-492 | A header's attestation is passed over if and only if there is none, or its source is below its target and either no keys are held for it or its target, in the window, lies below the checkpoint. |
| Refusals.SignatureRefusal | crates/helios-bsc-consensus/src/vote.rs:167-239 | A vote is refused for the first of: overlong extra, more ones than validators, a one past them, no ones, a bad key, too few, a bad signature. |
| Refusals.AttestationRefusal | crates/helios-bsc-consensus/src/snapshot.rs:437-492 | An attestation is refused for the first rule it breaks against the walked chain and the justified head, with that rule's error, and only then for its signature. |
| Adoption.AcceptedMovesHeads | crates/helios-bsc-consensus/src/snapshot.rs:371-379 | Adoption justifies the target and finalizes the source of a contiguous or first vote; without one both heads stay. |
| Finalizing.FinalityAdvances | crates/helios-bsc-consensus/src/snapshot.rs:628-775 | For any crypto that accepts all aggregates there are runs of any length, of decodable headers sealed in turn, each carrying the next vote, in which the finalized head follows two blocks behind. |
| Accountable.AccountableSafety | crates/helios-bsc-consensus/src/snapshot.rs:437-492 | If one client finalizes F and another of the same checkpoint and keys, having started to justify below F, adopts a vote at F's height or above on a chain without F, a third of the set signed two conflicting votes (equal height, or one span inside the other), or two headers collide; through any number of epochs that announce the keys again. |
| Accountable.ReannouncedIsOneSet | crates/helios-bsc-consensus/src/snapshot.rs:686-757 | A client runs under one set of keys whenever every epoch header it accepted announces the checkpoint's, in any order. |
| Accountable.TwoFinalizedConflict | crates/helios-bsc-consensus/src/snapshot.rs:371-379 | Two finalized blocks, neither on the other's chain, accuse a third of the set likewise. |
| Accountable.HighVoteConflictsIff | crates/helios-bsc-consensus/src/snapshot.rs:371-379 | A vote above the two votes that finalized F conflicts with them if and only if it starts below F. |
| Recents.SignRecentlyRefines | crates/helios-bsc-consensus/src/snapshot.rs:530-546 | In every live state at height N, the check holds if and only if the sealer is not the all-zero address and sealed at least turnLength walked blocks above max(N - minerHistoryCheckLen, finalized, last activation). |
| Recents.ClientRefines | crates/helios-bsc-consensus/src/snapshot.rs:530-546 | The same for the client fed any headers, in terms of the ones it accepted. |
| Recents.TightAlways | crates/helios-bsc-consensus/src/snapshot.rs:665-757 | In every state of every live run the history holds no block older than the window that is counted. |
| Verdict.SealersAreMembers | crates/helios-bsc-consensus/src/seal.rs:677-691 | Every header of every walked chain was recovered to a member of the set in force right before it, who is its miner. |
| Verdict.SealedIff | crates/helios-bsc-consensus/src/seal.rs:677-691 | Seal verification succeeds if and only if fields, layout and difficulty range are good, the seal recovers to the miner and the hash is the header's; another signer is a coinbase mismatch. |
| Verdict.UsedUpIff | crates/helios-bsc-consensus/src/snapshot.rs:530-546 | A sealer has signed recently if and only if turnLength seals of the walked chain recover to it inside the window of minerHistoryCheckLen blocks, above the finalized block and the last switch. |
| Verdict.AcceptedIff | crates/helios-bsc-consensus/src/snapshot.rs:628-775 | A client fed anything accepts a header if and only if the walked chain says so: seal, link, membership, slot, seals in the window, wait, attestation. |
| Verdict.LinkRefusedIff | crates/helios-bsc-consensus/src/snapshot.rs:632-646 | A refusal looks like a broken link if and only if the seal is good and the number or the parent is not the next one. |
| Refusals.HeaderRefusal | crates/helios-bsc-consensus/src/snapshot.rs:628-669 | A header is refused for its seal, then its place, its sealer, its difficulty, and then for sealing too recently; only from there on is a leaving history entry gone. |
| Witness.SentinelEscapes | crates/helios-bsc-consensus/src/snapshot.rs:534-537 | With the all-zero address among two or more validators, whatever the crypto, accepted headers, decodable ones, fill a quiet window from that one sealer, which never counts as having signed recently. |
| Schedule.InturnNeverRecent | crates/helios-bsc-consensus/src/snapshot.rs:530-546 | While the blocks since the last switch were sealed in turn, the validator in turn has not signed recently. |
| Schedule.InturnAcceptedIff | crates/helios-bsc-consensus/src/snapshot.rs:628-684 | Then any header the validator in turn validly seals, with the next number, the parent's hash and difficulty 2, is accepted if and only if its attestation passes the check. |
| Schedule.InturnRunAcceptedIff | crates/helios-bsc-consensus/src/snapshot.rs:628-775 | Over whole runs, through any epochs and set switches: headers all sealed in turn are all accepted if and only if every attestation passes. |
| Honest.HonestWalkAccepted | crates/helios-bsc-consensus/src/snapshot.rs:628-775 | Such runs exist, of any length and for any crypto: one crafted header per height, each with the fields and extraData the client would decode, all accepted. |
| Honest.CraftDecoded | crates/helios-bsc-consensus/src/seal.rs:357-400 | The crafted headers pass the stand-alone field checks, and their parsed extra is what their bytes parse to. |
| Fields.MiddleIff | crates/helios-bsc-config/src/extra.rs:72-110 | An epoch's announcement is parsed from a middle part if and only if that part is its bytes: count, records, turn length, attestation. |
| Fields.ExtraReads | crates/helios-bsc-config/src/extra.rs:41-112 | extraData built around an announcement, or around an attestation alone off the epoch, parses back to it. |
| Recents.RecentsAlways | crates/helios-bsc-consensus/src/snapshot.rs:665-757 | The pruned history holds exactly the walked sealers above that floor, plus entries that are never counted. |
| Diversity.SealerDiversity | crates/helios-bsc-consensus/src/snapshot.rs:530-546 | Any (floor(n/2)+1)*turnLength consecutive walked blocks without a set switch or finality reaching into them have at least floor(n/2)+1 distinct sealers, unless the all-zero address is a validator. |
| Diversity.Pigeonhole | crates/helios-bsc-config/src/lib.rs:269-274 | A list over a set in which no value occurs more than t times is no longer than t times the set's size. |
| SnapshotObject.CountLoop | crates/helios-bsc-consensus/src/snapshot.rs:530-546 | The loop over the unordered history with its saturating u8 counter and early exit decides whether enough entries match. |
| SnapshotObject.PairLoop | crates/helios-bsc-consensus/src/snapshot.rs:249-256 | The loop pairs each address with its own key before anything is sorted. |
| SnapshotObject.Snapshot.FromCheckpoint | crates/helios-bsc-consensus/src/snapshot.rs:239-287 | Pairing, sorting and filling the fields one by one gives the checkpoint snapshot. |
| SnapshotObject.Snapshot.SeedTurnLength | crates/helios-bsc-consensus/src/snapshot.rs:299-310 | Seeding is refused once a header was walked and leaves the object alone then. |
| SnapshotObject.Snapshot.AdoptAttestation | crates/helios-bsc-consensus/src/snapshot.rs:371-379 | A non-contiguous vote moves only the justified head. |
| SnapshotObject.Snapshot.ApplyVerified | crates/helios-bsc-consensus/src/snapshot.rs:628-768 | The in-place step ends in exactly the state and verdict of the value-level step, on acceptance and on every rejection. |
| SnapshotObject.Snapshot.ApplyHeader | crates/helios-bsc-consensus/src/snapshot.rs:770-774 | Seal verification then the step, with the state and verdict of the value-level function. |
| Finality.SafeIsNewest | crates/helios-bsc-consensus/src/finality.rs:23-49 | The pivot is i if and only if the suffix at i has exactly the threshold of distinct sealers and the next has fewer; Safe is its parent. |
| Finality.SafeIsTwoThirds | crates/helios-bsc-types/src/lib.rs:171-176 | The sealers after a Safe block are more than two thirds of n, and one fewer would not be. |
| Finality.SafeSuffixesMeet | crates/helios-bsc-consensus/src/finality.rs:23-49 | Two Safe heads over one set of n sealers rest on suffixes that share more than a third of them. |
| Finality.AppendRaisesPivot | crates/helios-bsc-consensus/src/finality.rs:23-49 | New blocks never lower the pivot. |
| Finality.DropKeepsSafe | crates/helios-bsc-consensus/src/finality.rs:23-49 | Dropping a prefix leaves Safe unchanged or makes it None. |
| Finality.NewestSafeLoop | crates/helios-bsc-consensus/src/finality.rs:23-49 | The backward loop with its list of seen sealers computes the newest Safe head. |
| Sync.AppendFollows | bin/helios-bsc/src/sync.rs:302-355 | After every append, successful or not, chain and snapshot describe the old branch plus a prefix of the reply; a success took all of it and the snapshot is the fold itself. |
| Sync.FollowsShape | bin/helios-bsc/src/sync.rs:302-355 | In every such state the snapshot stands on the chain's last block by number and hash, and the chain is consecutive and parent-linked. |
| Sync.AppendAllExact | bin/helios-bsc/src/sync.rs:319-343 | Once a header is accepted the snapshot equals the fold over the branch, earlier rejections leaving nothing. |
| Sync.WindowIs512 | bin/helios-bsc/src/sync.rs:302-355 | A successful append leaves the newest 512 of the old blocks and the reply's together. |
| Progress.AppendOkIff | bin/helios-bsc/src/sync.rs:302-355 | An append succeeds if and only if the tip is no news or every header of the reply passes against its parent block and the snapshot of those before it; the snapshot is then their fold. |
| Progress.LinkBreakIff | bin/helios-bsc/src/sync.rs:129-134 | It ends in a link break if and only if, after headers that pass, a well-sealed one that is on time follows another block. |
| Sync.StaleIff | crates/helios-bsc-consensus/src/snapshot.rs:665-668 | A rejected header makes the snapshot differ from the fold if and only if it got as far as a history entry that was about to leave. |
| Witness.StaleSnapshot | bin/helios-bsc/src/sync.rs:302-343 | Whatever the crypto, some refused append of a decodable header leaves such a difference, and a later append that sees no header succeeds with it. |
| Sync.AppendNewWithSnapshot | bin/helios-bsc/src/sync.rs:302-355 | The loop, the no-op on a passed tip and the trim to 512 blocks compute the append of the theorems. |
| Engine.BootIsFresh | crates/helios-bsc-consensus/src/lib.rs:267-294 | A booted walk starts on the trusted checkpoint by number, hash and state root, having walked nothing. |
| Engine.WalkFollows | bin/helios-bsc/src/sync.rs:372-402 | A successful walk ends on the branch from the checkpoint holding the reply's headers, and the snapshot is its fold. |
| Progress.BootIff | crates/helios-bsc-consensus/src/lib.rs:267-294 | A boot succeeds if and only if the checkpoint names sealers and keys once each, the header is the one it trusts under a good seal, and no switch is pending; it starts in the newest epoch's turn length. |
| Progress.WalkOkIff | bin/helios-bsc/src/sync.rs:372-402 | A walk succeeds if and only if the tip is near enough, the boot succeeds and every header passes. |
| Engine.BootIsAligned | bin/helios-bsc/src/sync.rs:414-455 | Whatever epoch headers the upstream offers, a booted snapshot has aligned validators and keys. |
| Engine.LightEngine.ApplyHeader | crates/helios-bsc-consensus/src/lib.rs:331-357 | Cascading check before the snapshot moves, push, trim and Safe, with the whole new state stated. |
| Engine.LightEngine.ApplyHeaders | crates/helios-bsc-consensus/src/lib.rs:296-301 | Trimming after every header gives the same chain as appending all and trimming once. |
| Node.SearchIsNewest | bin/helios-bsc/src/rpc_server.rs:1056-1109 | Recovery rewinds to the newest point not passed over, stops there on another error, and replays only if every point was passed over. |
| Node.RecoverFollows | bin/helios-bsc/src/rpc_server.rs:1044-1136 | A successful recovery leaves chain, snapshot and every rollback point on the winning branch alone, the snapshot being its fold, or the rollback point the search chose when its walk saw no header; a failed one changes nothing. |
| Progress.RecoverOkIff | bin/helios-bsc/src/rpc_server.rs:1044-1136 | Recovery succeeds if and only if the newest retained state whose walk does not stray rejoins the reply, or every one strays and the replay from the checkpoint succeeds. |
| Progress.WinEndsAt | bin/helios-bsc/src/rpc_server.rs:1056-1097 | It then ends on the chain up to that state with the reply's blocks, the fold of the reply, and the retained states at or below it. |
| Refusals.RecoveryRefusal | bin/helios-bsc/src/rpc_server.rs:1044-1136 | A failed recovery changes nothing, and its error is that of the walk the search ended on, of the replay when every state strayed, or without a checkpoint the link break itself. |
| Progress.ReorgRecovered | bin/helios-bsc/src/rpc_server.rs:967-1024 | A resync whose append breaks the link ends there, from wherever the append left the node, and serves it if and only if 15 sealers have built on some block of it. |
| Progress.EarlyForkStays | bin/helios-bsc/src/sync.rs:319-343 | As long as the upstream's next header is too early for the tip, no resync recovers, whatever it follows: the node stays as it is. |
| Witness.EarlyForkMissed | bin/helios-bsc/src/rpc_server.rs:1036-1043 | For any crypto there is such a state, of decodable headers: a retained state would rejoin the upstream, and the resync ends in a cascading error instead. |
| Node.RecordKeeps | bin/helios-bsc/src/rpc_server.rs:1159-1175 | Recording keeps at most 16 points of the branch, none below the window, the newest at most 15 blocks behind the head. |
| Retention.ResyncRecords | bin/helios-bsc/src/rpc_server.rs:1159-1175 | What a resync retains, exactly: the points from the floor on, the head if it is 16 past the newest, and of these the newest 16. |
| Retention.CallsSpaced | bin/helios-bsc/src/rpc_server.rs:1159-1175 | Over every run, rewinds included, the points are at least 16 blocks apart and 16 at most. |
| Retention.DepthCovered | bin/helios-bsc/src/rpc_server.rs:1159-1175 | After a run from boot that ends well the newest point is within 15 blocks of the head and a full sixteen span 240. |
| Node.ResyncFollows | bin/helios-bsc/src/rpc_server.rs:967-1024 | Every resync, whatever the upstream answers and however it ends, leaves one consistent branch: the old one grown by the reply, or the winner of a rewind or replay; after a success that accepted a header the snapshot is its fold, and one that saw none leaves exactly the snapshot it had or the point it rewound to. |
| Node.PointOnChain | bin/helios-bsc/src/rpc_server.rs:1159-1175 | Every rollback point at or above the chain floor names a block of the chain by number and hash. |
| Node.RunsAreSound | bin/helios-bsc/src/rpc_server.rs:967-1175 | Over every run of resyncs the chain is linked, the snapshot stands on its last block and is the branch's fold up to one leaving history entry, exactly the fold after any success that accepted a header, and the points sit on the chain. |
| Node.BootHolds | bin/helios-bsc/src/rpc_server.rs:276-364 | A checkpoint boot, its wait for a Safe head included, starts in the invariant with its own head to rewind to; the tip it publishes is a verified block's number unless the reply stopped short of it. |
| Node.BootedRunsAreSound | bin/helios-bsc/src/rpc_server.rs:276-364 | The run theorem from boot on, whatever the upstream answers to the boot, its polls and every resync. |
| Pacing.CallsPaced | crates/helios-bsc-consensus/src/seal.rs:493-530 | Over every run each block passed the cascading check against its own parent, even where a rewind joined two branches. |
| Pacing.MillisRise | crates/helios-bsc-consensus/src/seal.rs:493-530 | k blocks of the chain take at least k times the shortest interval. |
| Pacing.CascadingIff | crates/helios-bsc-consensus/src/seal.rs:493-530 | A live header passes against its parent if and only if it is 750 ms later, 450 from Fermi on, keeps 5000 gas and moves the limit by less than a 1024th. |
| Pacing.MilliSplits | crates/helios-bsc-consensus/src/seal.rs:346-356 | A block clock is the time in seconds with the last two mix bytes as milliseconds. |
| Served.HeadIsLocal | bin/helios-bsc/src/sync.rs:223-244 | The served head is a block of the local chain with that block's state root, at or above confirmation depth. |
| Served.ReadIs | bin/helios-bsc/src/sync.rs:223-244 | Reads resolve to confirmation depth, 15 of 21 sealers, unless fast finality is on and the chain holds the finalized block above it: then to that block and its state root. |
| Served.ReadNumber | bin/helios-bsc/src/sync.rs:223-244 | Over a branch the fast head is the finalized block if and only if that is on the branch and newer than confirmation depth. |
| Served.FastHeadStays | bin/helios-bsc/src/sync.rs:223-244 | Once the finalized block is on the branch, the fast head is at or above it from then on. |
| Served.ServedHeadMonotone | bin/helios-bsc/src/rpc_server.rs:473-487 | Across any refreshes without reorg recovery, failed ones included, the served head never moves backwards, even as old blocks age out. |
| Publish.ResyncRaises | bin/helios-bsc/src/rpc_server.rs:967-1024 | With exact replies a sync never ends the chain lower than before, even through a recovery. |
| Publish.RewindLowersIff | bin/helios-bsc/src/rpc_server.rs:1064-1097 | A rewind lowers the head if and only if its reply is shorter than the blocks given up. |
| Publish.SampleInOrder | bin/helios-bsc/src/rpc_server.rs:903-962 | A sample taken in a consistent state has finalized below justified below tip, Safe below tip, the read head between, and a view that repeats the gauges. |
| Publish.PublishedInOrder | bin/helios-bsc/src/rpc_server.rs:879-964 | Every sample any interleaving publishes is in that order, whatever the upstream answers. |
| Publish.PublishedTogether | bin/helios-bsc/src/rpc_server.rs:879-964 | Whatever the upstream answers, at any moment the gauges hold the first stores of the newest successful sync over the whole previous sample; with the lock free they are the newest alone. |
| Publish.PublishedHeadMonotone | bin/helios-bsc/src/rpc_server.rs:879-964 | With exact replies, under any interleaving of threads neither the tip gauge nor the view's head ever decreases, although tips are sampled outside the lock. |
| Publish.PublishedReadMonotone | bin/helios-bsc/src/rpc_server.rs:879-964 | Under any interleaving and whatever the upstream answers, the read head of the published view never falls while no sync has to recover from a reorg. |
| Publish.BootStarts | bin/helios-bsc/src/rpc_server.rs:276-364 | A booted node with idle workers is a start state of these theorems, unless the boot's reply stopped short of its tip. |
| Refreshing.RefreshCompletes | bin/helios-bsc/src/rpc_server.rs:879-964 | An idle thread that finds the lock free can finish a refresh by its own steps: lock free, node where the resync leaves it, every gauge from that sync or none changed. |
| Refreshing.LockComesFree | bin/helios-bsc/src/rpc_server.rs:879-964 | In every reachable state with the lock held, its holder can let go by its own steps. |
| Lookback.VerifyHeaderChainFrom | bin/helios-bsc/src/sync.rs:46-81 | The accumulating loop accepts and returns exactly what the recursive definition does, with its error otherwise. |
| Lookback.ReorgScan | bin/helios-bsc/src/sync.rs:140-151 | The reversed scan decides whether the windows meet at or above the floor. |
| Windows.VerifyIff | bin/helios-bsc/src/sync.rs:46-81 | A window is taken if and only if each header is well sealed, follows the one before and is paced by it; a refusal looks like a reorg if and only if the first to fail is a well-sealed header that follows another block. |
| Lookback.AcceptsIff | bin/helios-bsc/src/sync.rs:140-162 | A replacement is accepted if and only if it shares a block at most 21 below the old tip, or one window is empty. |
| Lookback.LookbackBounded | bin/helios-bsc/src/sync.rs:153-162 | An accepted replacement holds the old hash at every common height up to a shared block within 21 of the old tip, or two of the headers collide. |
| Lookback.ResyncBounded | bin/helios-bsc/src/rpc_server.rs:997-1019 | Every lookback resync leaves a verified window, a failed one the old window; unless it starts over, the old window is extended by linked blocks, or kept, or replaced by one that shares a block within 21 of its tip, or, on an empty reply, lost. |
| Windows.ResyncIs | bin/helios-bsc/src/rpc_server.rs:997-1019 | Every resync without a checkpoint in full: when it starts over, keeps, extends or replaces the window, with which blocks, and that any other ends in an error with the window as it was. |
| Lookback.ResyncLookback | bin/helios-bsc/src/rpc_server.rs:997-1019 | The branches of the no-checkpoint resync, in order, compute that window. |
| NodeObject.Node.RecordRollback | bin/helios-bsc/src/rpc_server.rs:1159-1175 | The pops and the push leave exactly the recorded points. |
| NodeObject.WaitLoop | bin/helios-bsc/src/rpc_server.rs:301-332 | The boot's polling loop ends where the value-level wait does. |
| NodeObject.BootstrapFromCheckpoint | bin/helios-bsc/src/rpc_server.rs:276-364 | Walk, wait and construction give exactly the state and gauges BootHolds and BootStarts are about. |
| NodeObject.Node.TryPoint | bin/helios-bsc/src/rpc_server.rs:1064-1087 | Truncating, checking the end and walking pass over exactly the unusable points and give the walk of a usable one. |
| NodeObject.Node.SearchPoints | bin/helios-bsc/src/rpc_server.rs:1056-1109 | The loop over points, newest first, finds exactly the point and walk that SearchIsNewest describes, writing nothing. |
| NodeObject.Node.RecoverFromLinkBreak | bin/helios-bsc/src/rpc_server.rs:1044-1136 | Rewind or replay ends in exactly the state and error of the recovery the theorems are about, untouched on failure. |
| NodeObject.Node.ResyncLocked | bin/helios-bsc/src/rpc_server.rs:967-1024 | The locked section ends in exactly the state and result of the resync the theorems are about. |
| NodeObject.Node.RefreshNow | bin/helios-bsc/src/rpc_server.rs:879-964 | A success stores the whole sample of that sync; a failure leaves every gauge as it was. |

## Left out

- Cryptography (keccak256, secp256k1 recovery, BLS aggregation): arbitrary functions and, for recovery, a field of the decoded header.
- Hex strings and JSON: the model starts from decoded headers. A header carries its parsed extra data and the verdict of its stand-alone field checks; `Fields` models both, and the theorems over arbitrary headers do not need them.
- Forks before Maxwell and the climbing epoch length: fixed at 1000; the fork turn length is that of the live regime.
- revm calls, receipts, logs, filters, account decoding, and the JSON-RPC surface: no property here depends on them.
- The Rust RLP errors and the attestation decoder's reasons are one error each; which bytes are refused is exact.
- Library sorts are insertion sorts with the same order; a binary search over the validators is membership.
- The proof walker's draining of its nibble list and proof slice is the passing of what is left of both.
- Wall-clock checks, timeouts, sleeps, the catch-up of the soak tool and checkpoint files; the bootstrap's time limit is running out of polls.
- Integers are unbounded except where the source saturates or the history's sentinel keys matter; block numbers are below 2^63 there.
- Committed.OneTipOneRoot: headers are shorter than 2^64 bytes.
- Lookback.LookbackBounded: headers are shorter than 2^64 bytes.
- Accountable.AccountableSafety: headers are shorter than 2^64 bytes; a change of keys during either run is not covered.
- NodeObject.Node: has a snapshot at all times; the resync without one is in Lookback.
