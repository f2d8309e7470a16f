# SnapNotes: chain, ledger and accumulator

SnapNotes is an append-only note ledger. A server orders transactions into mined blocks, each block
header commits to all transactions so far through a Merkle Mountain Range, and clients pick the chain
with the most work, verify it block by block, and resubmit their own notes until they are on it. This
project models those parts in Dafny and proves what they keep.

## How to verify

`dafny verify dfyconfig.toml`, with Dafny 4.11.

## What is modelled

* `Arith`, `ByteStrings`, `Wire`: 64-bit integers with Go's conversions, shifts and bits, byte strings,
  transactions, headers, proof of work. SHA-256, canonical CBOR, Ed25519 and the payload decoders are tables
  (`Env`) about which nothing is assumed, except, where a theorem names `Codecs`, that strict decoding undoes
  canonical encoding. No hash is assumed injective: a theorem that would need it returns two distinct inputs
  with one hash, or names the headers whose hashes must differ.
* `Mmr`, `InclusionProofs`, `Commitment`: the accumulator, its prover and its verifier, and what a root commits
  to. `Peaks` and `Tree` are the reference: the unpaired last node of each level of the tree. The incremental
  loop, the loop over leaf offsets, the prover and the verifier are each proved equal to it or to a function of
  it.
* `Chainwork`: work, fork choice and the stored form of the work.
* `HeaderTree`, `HeaderTreeProofs`, `Finalization`, `FinalizeFailures`, `FinalizationLoop`, `ChainStore`,
  `ChainManagement`: the client's header tree. The classes change their maps step by step and are proved against
  functions on a `View`; the properties are about all runs of those functions. A ghost record keeps every header
  ever stored and the order in which hashes were first stored, which is what makes the ancestor walk end.
* `Ledger`, `LedgerService`: one stream of the server: memory, the tables on disk with their primary keys,
  accept, restart and reorganisation. The class updates its fields in the order the server does, and each method
  is proved to have exactly the outcome of a function on memory and tables, late failures included.
* `LedgerInvariants`, `LedgerHistory`, `LedgerRuns`, `LedgerAuthority`, `RevocationRace`: what accepts and
  restarts keep, over all runs in which requests are checked and accepted in any interleaving, and when a block
  outlives its author's key.
* `RequestOutcomes`: which reply each posted request gets, and what a freshly seeded stream decides, in terms of
  the request and the configuration alone.
* `LateFailures`: runs that go on after a failure to write, and when the tables can still be read back.
* `Peer`, `PeerRuns`, `Convergence`: validating and adopting another node's chain, alone and mixed with accepts
  and restarts.
* `Paging`, `Serving`: pages, downloads from a growing chain, and served proofs.
* `CatchUp`, `ClientFollowsServer`: the two ends together, a fresh client catching up from a running server.
* `ClientOutbox`, `SubmissionRuns`: the outbox, and submission over a network that loses, delays and repeats.
* `Scenario`, `RevocationRace`, `ReenrolmentRun`, `ForeignStreamRun`: a small stream, and runs on it that show
  the inputs at which the program breaks a promise.

A step is clean when the accept succeeds or is rejected with nothing changed. Most run theorems are over clean
steps, because a late failure (a rotation bundle that fails at a grant, mining, the database) leaves memory
ahead of disk. `RejectionChangesNothingExactly` and `RefusalChangesNothingExactly` say when that happens,
`AcceptsExactly` when an accept succeeds. `LateFailures` goes on: a restart brings memory back to what the tables
hold, unless an accept committed first on top of a block that was not written; then the server does not start
again.

## Where code and documentation differ

The model follows the code.

* `MineBlock` documents a trial limit (internal/protocol/block.go:32-34, 55-59), but reaching it stops the loop
  only when it is zero (lines 82-88): the search ends on success or when the nonce wraps. `TrialBoundExactly`
  says when the documented limit is met all the same.
* The work of a block is documented as floor(2^256 / (target + 1)) (internal/protocol/chainwork.go:8-10) and
  coded with 2^256 - 1. They differ exactly where `WorkVersusDocumented` says.
* A harder target is documented to be worth strictly more (internal/protocol/chainwork.go:22-24). It is worth no
  less; `WorkTiesExactly` says when it is worth the same, which never happens below 2^128 (`WorkIsStrictBelow`)
  and does at the default target (`DefaultTargetTies`).
* All hashes are documented to be 32 bytes (docs/protocol-v1.md:247), but the verifier checks only the leaf's
  length. Soundness needs the peaks to be 32 bytes, or at least the ones below the proven peak to add up to
  that; `MisalignedPeaksAccepted` shows it fails without.
* The documented pseudo-code of leaf addition as written keeps the merged peaks, and that of verification halves
  the whole range, not one mountain (docs/protocol-v1.md:150-157, 211-238); the code merges by the bits of the
  leaf count and climbs within one mountain.
* A transaction names its stream in its signed body. The server files it under the stream of the request without
  comparing (internal/api/server.go:621-695); the client compares (internal/sync/chain.go:321-324).
  `ClientCatchesUp` says what follows, `ForeignTransactionStopsClient` shows it.
* `FinalizeBlock` promises the malformed-header error and unchanged verified state on every failure
  (internal/sync/chain.go:285-288). `FinalizeOutcomeExactly` says which failures are of that kind, and
  `FailureKeepsHeadersExactly` which leave the headers as they were: a new header with a malformed body stays, a
  stored one with a rejected body goes.
* It also promises to verify the body against the header applied before, root continuity included. The code reads
  the header of the answer (internal/sync/chain.go:293, 331-344) and never compares it with the stored one.
  `ForeignBodyFinalizes` shows what passes, `FinalizedRootExactly` says when the promise holds.
* The tables are promised to rebuild an identical state (internal/api/server.go:79-83) and never to be
  inconsistent (internal/api/ledger_store.go:326-328). A block that is pushed in memory and not written breaks
  both at the next accept that commits. Enrolling an enrolled device again is enough (`ReenrolmentHoles`,
  `ReenrolledServerStops`). `TablesRebuildExactly` says when the tables can be read back, and `RestartRepairs` from
  when on they rebuild the identical state.
* A fresh node is promised to converge by pointing it at any node already in sync (internal/api/peer.go:16-20).
  A reorganisation stores bodies in a form the page handler cannot decode (lines 173-183), so a node that
  reorganised cannot be such a peer: `ServableExactly`.
* Resubmitting an accepted transaction is documented to return its original receipt (docs/protocol-v1.md:64). It
  returns the current count: `RetryGetsOriginalExactly`.
* A revoked device's creates are meant to be rejected after the bundle by the epoch check
  (docs/threat-model.md:29). Those that name an epoch open when they were checked are (`StaysAuthorized`). But
  the author is checked before the lock of the accept (internal/api/server.go:658-674) and not again under it,
  so a create that names the bundle's epoch already still appends. `AuthorUnauthorizedExactly` and
  `OnlyPrematureCreatesOutliveTheirKey` say when, `RevokedAuthorAppends` shows a run.
* A duplicate note id is documented as a permanent submission error (docs/protocol-v1.md:114). The client marks
  the row synced, since the note is on the chain (internal/sync/client.go:197-199): `DeliveredRowExactly`.
* An unauthorized key is documented as a permanent submission error (docs/protocol-v1.md:114), and the client
  marks the row failed. The transaction may be on the chain all the same, when it is a retry:
  `RetryFailsExactly`, `FailedRowOnChain`, `AcceptedRowFails`.

## Model

| member | source | states |
|---|---|---|
| Arith.NoHighBits | internal/protocol/mmr.go:81-114 | no bit at or above 64 is set in a leaf count below 2^63, so loops over 64 bits see them all |
| Arith.SplitBits | internal/protocol/mmr.go:81-89 | a number is its high part shifted back plus its low bits |
| Mmr.OnePeakPerSetBit | internal/protocol/mmr.go:104-114 | there is one peak per set bit of the leaf count |
| Mmr.AddLeaf | internal/protocol/mmr.go:41-52 | the merging loop over the bits of the count is binary increment with hashing |
| Mmr.CarryStops | internal/protocol/mmr.go:41-52 | where the level has an even number of nodes the carry ends in a new peak |
| Mmr.CarryMerges | internal/protocol/mmr.go:41-52 | where it has an odd number the carry merges with the last node into the level above |
| Mmr.CarryAppends | internal/protocol/mmr.go:41-52 | adding a leaf to the peaks of a list gives the peaks of the list with that leaf, for every list |
| Mmr.MmrRootFromPeaks | internal/protocol/mmr.go:56-66 | the root is the empty root or the hash of the joined peaks |
| Mmr.LevelIsTree | internal/protocol/mmr.go:13-38 | hashing neighbours pairwise, left before right, level by level gives the nodes of the tree |
| Mmr.RootOfThree | internal/protocol/mmr.go:41-66 | the root of three leaves, byte by byte |
| Mmr.MmrRootFromLeaves | internal/protocol/mmr.go:70-76 | folding leaf addition over any list gives the reference root |
| Mmr.StartOf | internal/protocol/mmr.go:81-89 | a mountain starts at the leaf count with its low bits cleared, a multiple of its size's double |
| Mmr.MountainStart | internal/protocol/mmr.go:81-89 | the loop over the higher bits finds that start |
| Mmr.MerkleRootIsTree | internal/protocol/mmr.go:93-99 | the recursive subtree over an aligned block is the tree node of that block |
| Mmr.SummitIsTree | internal/protocol/mmr.go:93-114 | where a bit is set, its mountain's summit is the unpaired last node of that level |
| Mmr.MountainSummits | internal/protocol/mmr.go:104-114 | the direct form by offsets gives the same peaks as the incremental form |
| Mmr.PeaksAreDigests | internal/protocol/mmr.go:104-114 | over 32-byte leaves every peak is 32 bytes |
| InclusionProofs.EveryLeafHasAMountain | internal/protocol/mmr.go:130-168 | every position in range lies in the mountain of some set bit |
| InclusionProofs.MountainEndsAtSummit | internal/protocol/mmr.go:130-168 | only one: that of the level where its climb ends |
| InclusionProofs.PathStep | internal/protocol/mmr.go:147-158 | below the summit the path starts with the sibling, and the two hash to the parent's node |
| InclusionProofs.SiblingByOffset | internal/protocol/mmr.go:147-158 | the sibling read by offset is the sibling node of the level, on the same side |
| InclusionProofs.CollectSiblings | internal/protocol/mmr.go:144-159 | the prover's inner loop collects the path, and its climbing node is the tree node over its aligned block at every level |
| InclusionProofs.GenerateInclusionProof | internal/protocol/mmr.go:130-168 | the generated proof is the honest one; an error exactly when the position is out of range |
| InclusionProofs.ClimbMountain | internal/protocol/mmr.go:191-209 | the verifier's inner loop climbs to the summit, or fails when the proof is too short or too long |
| InclusionProofs.CountLowerPeaks | internal/protocol/mmr.go:210-216 | the peak index is the number of lower mountains |
| InclusionProofs.VerifyInclusionProof | internal/protocol/mmr.go:173-226 | the verifier accepts exactly when the climb from the leaf, put among the peaks, bags to the root |
| InclusionProofs.ClimbHonest | internal/protocol/mmr.go:173-226 | climbing the honest path from any node reaches that node's own peak |
| InclusionProofs.HonestProofAccepted | internal/protocol/mmr.go:130-226 | completeness: for every list and position the generated proof verifies |
| InclusionProofs.ClimbSound | internal/protocol/mmr.go:173-226 | the only way up to a peak is the right node along the right path, or a collision |
| InclusionProofs.AcceptedProofSound | internal/protocol/mmr.go:173-226 | soundness: an accepted proof with aligned peaks names the leaf at its index with its own path, or gives two inputs with one hash |
| InclusionProofs.AcceptsExactlyHonest | internal/protocol/mmr.go:173-226 | with 32-byte peaks the accepted proofs are the honest ones, up to the peak the verifier overwrites, or a collision is given |
| InclusionProofs.MisalignedPeaksAccepted | internal/protocol/mmr.go:173-226 | without the 32-byte hypothesis soundness fails for every hash function and any seven leaves: an accepted proof that passes an inner node off as leaf 4 |
| InclusionProofs.RootCommitsToLeaves | internal/protocol/mmr.go:56-76 | two equally long lists with one root are equal, or a collision is given |
| InclusionProofs.RootDoesNotFixLength | internal/protocol/mmr.go:13-38 | why leaves have a separator of their own: over leaves hashed like nodes the root would not fix the number of leaves |
| Commitment.SameNodeSameHeight | internal/protocol/mmr.go:13-38 | over leaves with the leaf separator, equal nodes are at one height, or two inputs with one hash are given |
| Commitment.SamePeaksSameLength | internal/protocol/mmr.go:41-66 | equal peaks come from equally many leaves, or two inputs with one hash are given |
| Commitment.OneRootOneList | internal/protocol/mmr.go:13-76 | one root, one list of transaction hashes, length included, or two inputs with one hash are given |
| Chainwork.CumulativeChainwork | internal/protocol/chainwork.go:39-45 | the loop sums the per-block work |
| Chainwork.BytesGreater | internal/protocol/chainwork.go:62-72 | the loop compares length first, then the first differing byte |
| Chainwork.GreaterIsBigEndian | internal/protocol/chainwork.go:61-72 | on equally long strings that is the order of big-endian values |
| Chainwork.SelectBestIsStrictTotalOrder | internal/protocol/chainwork.go:47-59 | fork choice is irreflexive, asymmetric, total and transitive on (work, hash) pairs |
| Chainwork.WorkIsAntitone | internal/protocol/chainwork.go:17-34 | a harder target is never worth less |
| Chainwork.WorkTiesExactly | internal/protocol/chainwork.go:22-34 | two targets are worth the same exactly when the harder one's quotient times the easier target plus one stays within 2^256 - 1; otherwise the harder is worth strictly more |
| Chainwork.WorkIsStrictBelow | internal/protocol/chainwork.go:22-34 | for targets below 2^128 the harder one is always worth strictly more, as documented |
| Chainwork.UpperTargetsTie | internal/protocol/chainwork.go:22-34 | ties at the easy end: every target from 2^255 to 2^256 - 2 is worth one |
| Chainwork.DefaultTargetTies | internal/protocol/genesis.go:11-18 | and in the middle: the default target 2^240 and 2^240 + 1 are worth the same |
| Chainwork.WorkVersusDocumented | internal/protocol/chainwork.go:7-34 | the work is one below the documented quotient exactly when target + 1 is a power of two up to 2^256, and equal otherwise |
| Chainwork.DefaultTargetWork | internal/protocol/genesis.go:11-18 | a block at the default target 2^240 is worth 65535 |
| Chainwork.ChainworkFits | internal/sync/catchup_headers.go:368-379 | at that target the total for any uint64 height stays below 2^256 |
| Chainwork.EncodeChainwork | internal/sync/catchup_headers.go:372-379 | the 32-byte buffer decodes to the number, for every number below 2^256 |
| Chainwork.DecodeIsInjective | internal/sync/catchup_headers.go:381-387 | distinct 32-byte blobs decode to distinct numbers below 2^256 |
| Wire.MeetsTargetExactly | internal/protocol/block.go:36-53 | a header with a 32-byte target passes exactly when its hash is not above the target, in the byte order of fork choice |
| Wire.MeetsPaddedTarget | internal/protocol/block.go:36-53 | with a target of another length the shorter of the two has zeros in front, and an empty target always passes |
| Wire.MineBlock | internal/protocol/block.go:60-95 | mining returns the first satisfying nonce at or after its start, with its hash, or fails exactly when there is none up to 2^64 - 1; with a 32-byte target the returned hash is not above it and the hash of every nonce skipped is; the number of nonces it hashes |
| Wire.TrialBoundExactly | internal/protocol/block.go:32-59 | the outcome is the documented one exactly when the first satisfying nonce lies within the trials or there is none, and the attempts are within the limit exactly when it lies there or the nonces run out there |
| HeaderTree.BestExists | internal/sync/chain.go:368-404 | every non-empty store has a header better than all others |
| HeaderTree.BestIsUnique | internal/sync/chain.go:368-404 | only one, whatever order the map is enumerated in |
| HeaderTree.BestIsHeaviest | internal/protocol/chainwork.go:47-59 | over 32-byte hashes a header is the best one exactly when every other has less work, or as much work and a hash of smaller value |
| HeaderTree.InsertLinked | internal/sync/chain.go:218-282 | storing a header whose parent is stored keeps every recorded parent before its child |
| HeaderTreeProofs.ReselectConsistent | internal/sync/chain.go:368-404 | recomputing marks exactly the ancestors of the best header and leaves work alone |
| HeaderTreeProofs.ApplyKeepsConsistent | internal/sync/chain.go:218-282 | applying a header keeps work additive along parents and the best branch active |
| HeaderTreeProofs.RemoveKeepsConsistent | internal/sync/chain.go:360-363 | so does removing a header without children |
| HeaderTreeProofs.FinalizeKeepsConsistent | internal/sync/chain.go:289-355 | so does finalizing a block, whether it is stored, applied or removed |
| HeaderTreeProofs.RunKeepsConsistent | internal/sync/chain.go:218-404 | over all runs of these steps each work is the parent's plus the block's, and the active headers are the ancestors of the unique best one |
| HeaderTreeProofs.RunKeepsAuthentic | internal/sync/chain.go:218-282 | over all runs every stored header hashes to its key, meets its target, and at height zero is the anchor |
| HeaderTreeProofs.KnownMeetsTarget | internal/sync/chain.go:218-242 | over those runs no recorded header with a 32-byte target has a hash above it, in the byte order of fork choice |
| HeaderTreeProofs.SeedConsistentIff | internal/sync/chain.go:191-203 | the seeded store has additive work exactly when the seed target is worth as much as the genesis header's |
| HeaderTreeProofs.ActiveAtEachHeight | internal/sync/chain.go:78-90 | with consecutive heights there is an active header at every height up to the best one's |
| HeaderTreeProofs.OneActivePerHeight | internal/sync/chain.go:78-90 | and only one |
| HeaderTreeProofs.HighestActiveIsBest | internal/sync/chain.go:124-137 | the highest active header is the best one |
| HeaderTreeProofs.TipIsHeaviest | internal/sync/chain.go:124-137 | so in a consistent store with consecutive heights every other header has less work than the highest active one, or as much work and a hash of smaller value |
| HeaderTreeProofs.ParentOfActiveIsActive | internal/sync/chain.go:383-395 | the active chain is closed under parents |
| HeaderTreeProofs.StateIsDetermined | internal/sync/chain.go:218-404 | two consistent stores with the same recorded headers and no bodies are equal |
| HeaderTreeProofs.DeliveryAccepted | internal/sync/chain.go:218-282 | a parent-first sequence is accepted header by header and leaves exactly its headers |
| HeaderTreeProofs.HeaderConfluence | internal/sync/chain.go:218-404 | any two parent-first orders of one header set, duplicates included, end with the same headers, work, active and orphaned marks |
| Finalization.BranchLength | internal/sync/chain.go:326-339 | with consecutive heights the branch of a header has height + 1 leaves |
| Finalization.NewPeaksAreSummits | internal/sync/chain.go:326-349 | the peaks of a body that fits are the summits of its own branch and bag to its mmr_root |
| Finalization.BodyFitsExactly | internal/sync/chain.go:308-349 | a body fits exactly when its id, signature and stream match, it encodes, and it completes its branch to the header's mmr_root |
| Finalization.RunKeepsFinalized | internal/sync/chain.go:289-355 | over all ancestor-first runs, forks and reorganisations included, every finalized header's peaks are its own branch's summits and bag to its mmr_root |
| Finalization.OneLeafPerBlock | internal/sync/chain.go:340-349 | two leaves that complete one branch to one mmr_root are equal, or a collision is given |
| FinalizeFailures.FinalizeOutcomeExactly | internal/sync/chain.go:285-355 | finalizing a block fails with the documented malformed-header error exactly when the header is malformed or its body is rejected, and with another error exactly when a check of another kind fails |
| FinalizeFailures.HeaderFailuresExactly | internal/sync/chain.go:218-250 | which failure a header with a 32-byte target meets: a wrong hash, a hash above the target, a genesis with a parent, another genesis, a missing parent, each exactly when it is the first |
| FinalizeFailures.AppliedRecordExactly | internal/sync/chain.go:251-282 | the record an applied header leaves: its own fields, not finalized, with its work on top of the parent's and the parent's peaks |
| FinalizeFailures.FailureKeepsHeadersExactly | internal/sync/chain.go:285-355 | a failing call leaves the stored headers as they were exactly when it neither dropped a stored header with a rejected body nor kept a new header with a malformed body |
| FinalizeFailures.ForeignBodyFinalizes | internal/sync/chain.go:293-354 | any transaction of the stream finalizes any stored header, when it comes under that header with the root exchanged for the one it makes |
| FinalizeFailures.FinalizedRootExactly | internal/sync/chain.go:326-349 | a finalized header's peaks bag to its own mmr_root exactly when the answer's header has the same mmr_root |
| FinalizeFailures.HashedAnswerKeepsRoot | internal/sync/chain.go:293-344 | which holds whenever the answer's header hashes to the stored hash |
| FinalizationLoop.LoopExactly | internal/sync/catchup_headers.go:181-197 | the ascending loop finishes exactly when every active header is good, otherwise it stops at the lowest that is not, at its height and with its error; what it has done after each height |
| ChainStore.MemChainStore.GetByHeight | internal/sync/chain.go:78-90 | the first listed header at the height that is active, else the first listed one, else none |
| ChainStore.MemChainStore.Put | internal/sync/chain.go:97-110 | the record is stored under its hash; a hash not listed at its height is listed last there, and the index stays exact unless the hash was stored at another height |
| ChainStore.MemChainStore.Remove | internal/sync/chain.go:112-122 | only that hash is gone, if it was there, and the index stays exact unless it was stored at another height |
| ChainStore.MemChainStore.All | internal/sync/chain.go:148-154 | every stored header once, in any order |
| ChainStore.MemChainStore.ActiveTip | internal/sync/chain.go:124-137 | the highest active header, or none when nothing is active |
| ChainManagement.ChainManager.SeedGenesis | internal/sync/chain.go:191-203 | the store holds the seeded genesis alone, active and finalized |
| ChainManagement.ChainManager.ApplyHeader | internal/sync/chain.go:218-282 | the store and the outcome are those of the step HeaderTreeProofs is about, every check included |
| ChainManagement.ChainManager.FinalizeBlock | internal/sync/chain.go:289-355 | likewise for finalizing a block |
| ChainManagement.ChainManager.RemoveHeader | internal/sync/chain.go:360-363 | likewise for removing a header |
| ChainManagement.ChainManager.RecomputeActive | internal/sync/chain.go:368-404 | likewise for selecting the active chain, whatever order the listing comes in; over 32-byte hashes some active header has more work than every other, or as much and a hash of greater value |
| ChainManagement.ChainManager.BestOf | internal/sync/chain.go:368-382 | the scan finds the best header; over 32-byte hashes every other listed header has less work, or as much and a hash of smaller value |
| ChainManagement.ChainManager.WalkBack | internal/sync/chain.go:383-395 | the walk ends and collects exactly the ancestors |
| ChainManagement.ChainManager.OrphanedHeaders | internal/sync/chain.go:408-416 | exactly the stored headers that are not active |
| ChainManagement.ChainManager.FinalizeActiveChain | internal/sync/catchup_headers.go:167-201 | store and result are those of the loop on views: it finishes exactly when every active header up to the tip has a served body that fits or is finalized already, otherwise it stops at the lowest that has not, with that one's error; on success every one carries its branch's summits, and no header changed its mark or work |
| LedgerService.LedgerStream.Seed | internal/api/ledger_store.go:98-194 | memory and tables of the seeded stream |
| LedgerService.LedgerStream.Restart | internal/api/ledger_store.go:198-285 | from any tables, gaps included: memory is rebuilt from the rows in height order, peaks and work by replay; it fails exactly when a row does not decode or the leaf at a row's place is missing |
| LedgerService.LedgerStream.LoadChain | internal/api/ledger_store.go:208-241 | the row loop reads the block rows in height order and one leaf for each by its place, with the peaks of the leaves; when it fails |
| LedgerService.LedgerStream.SortedHeights | internal/api/ledger_store.go:211 | every height once, in increasing order, whatever the heights |
| LedgerService.LedgerStream.PersistDelta | internal/api/ledger_store.go:342-403 | all rows are written, or none: exactly when the database commits and no insert meets its primary key |
| LedgerService.LedgerStream.WriteAuthorized | internal/api/ledger_store.go:381-393 | deleting revoked keys first and inserting granted ones after |
| LedgerService.LedgerStream.ApplyOperation | internal/api/server.go:202-282 | the authority after the operation and its result, also when a bundle fails halfway |
| LedgerService.LedgerStream.ApplyGrants | internal/api/server.go:268-277 | granted members are authorized in order, up to the first unknown device |
| LedgerService.LedgerStream.MineNext | internal/api/server.go:292-315 | the next block over the accumulator with the new leaf, mined |
| LedgerService.LedgerStream.TryAccept | internal/api/server.go:178-344 | memory, tables and result of one accept, for every outcome |
| LedgerService.LedgerStream.PostTransaction | internal/api/server.go:621-695 | the handler's checks in order, then the accept, and the reply with its status |
| LedgerService.LedgerStream.ValidateChain | internal/api/peer.go:69-120 | the loop accepts exactly the declaratively valid chains, and carries their peaks and total work |
| LedgerService.LedgerStream.ReplaceChain | internal/api/peer.go:147-244 | the tables are rewritten in one transaction and memory is reloaded |
| LedgerService.LedgerStream.ValidateAndReplaceChain | internal/api/peer.go:65-142 | validate, compare work, replace: state and outcome for every candidate |
| LedgerService.LedgerStream.HandlePage | internal/api/server.go:719-745 | the limit is clamped and the page is that of ReadPage |
| LedgerService.LedgerStream.ProofFor | internal/api/server.go:510-529 | the proof of the leaf, none past the end |
| RequestOutcomes.SelfProvingExactly | internal/api/server.go:637-672 | which requests prove themselves: version, lengths, payload size, id, signature and work, each by number |
| RequestOutcomes.RefusedReplies | internal/api/server.go:637-672 | a request that is not genuine changes nothing and is answered 413, 403 or 422, each exactly when its check is the first to fail |
| RequestOutcomes.UntimelyReplies | internal/api/server.go:674-694 | a genuine one that is not timely changes nothing: a receipt when its id is on the chain, 409 for a taken note, 409 for a stale epoch, each exactly then |
| RequestOutcomes.TimelyReplies | internal/api/server.go:674-694 | a genuine and timely one is answered with a receipt for one more transaction, 403 for an owner's operation by another, 422 for an illegal one, or 422 internal when something technical fails, each exactly then |
| RequestOutcomes.FailedBundleLeaves | internal/api/server.go:260-277 | a bundle that fails at its first unknown grant leaves in memory the epoch, the revocation and exactly the devices granted before it |
| RequestOutcomes.SeedChecks | internal/api/ledger_store.go:98-194 | on a seeded stream the checks pass exactly for the genesis author and the configured keys, with work against the target of the genesis payload, and epoch 0 is timely |
| RequestOutcomes.SeedOperations | internal/api/ledger_store.go:98-194 | and exactly these operations go through: a create under the payload's key epoch, the genesis author's enrolments and grants, and his bundles with a greater epoch, not against himself, all under the payload's encryption key |
| RequestOutcomes.SeedChain | internal/api/ledger_store.go:98-194 | it starts from the configured genesis block alone, whose hash is the anchor and the first parent, and drafts against the payload's target |
| LedgerInvariants.LoadsBack | internal/api/ledger_store.go:216-236 | rows that hold blocks decode to them |
| LedgerInvariants.RestartRestores | internal/api/ledger_store.go:196-285 | tables that mirror memory rebuild exactly that memory |
| LedgerInvariants.ChangeIsExact | internal/api/ledger_store.go:373-398 | member, delete-then-insert and epoch writes leave the tables with the authority in memory |
| LedgerInvariants.GrowsKeepsChained | internal/api/server.go:292-324 | an appended block keeps the chain numbered, linked, hashed, mined, accumulated and summed |
| LedgerInvariants.GrowsKeepsMirrored | internal/api/server.go:317-335 | and keeps the tables a mirror of memory |
| LedgerInvariants.AcceptKeepsSound | internal/api/server.go:178-344 | a successful accept keeps all of it, with no less work and the same anchor |
| LedgerInvariants.AcceptedHeader | internal/api/server.go:292-315 | the block of an accept is version 1, counts one more transaction than there were blocks, and carries the clock of the accept, and its nonce is the first from the random start that meets the target |
| LedgerInvariants.OnlyDeviceCanClash | internal/api/ledger_store.go:353-380 | the guards leave one primary key to collide on: the device of a member_add |
| LedgerInvariants.AcceptsExactly | internal/api/server.go:178-344 | when an accept succeeds, both directions |
| LedgerInvariants.RejectionChangesNothingExactly | internal/api/server.go:178-344 | a rejection never changes the tables, and leaves memory alone exactly when it comes before the block is begun with the authority untouched |
| LedgerInvariants.RefusalChangesNothingExactly | internal/api/server.go:202-282 | a refused operation changed the authority exactly when it is a rotation that reached its grants |
| LedgerInvariants.RestartUndoesRejection | internal/api/server.go:331-335 | a restart directly after a rejection brings back the state from before it |
| LedgerInvariants.ProceedsExactly | internal/api/server.go:202-282 | which operations go through, by type, with every grant of a bundle known |
| LedgerInvariants.PostAppendsExactly | internal/api/server.go:621-695 | a posted transaction is appended exactly when it is genuine, timely and legal, a nonce exists, the database commits and an enrolled device is new |
| LedgerInvariants.SeedSoundExactly | internal/api/ledger_store.go:98-194 | the seeded stream is sound exactly when the genesis header's target is worth as much as the payload's, which the server does not check |
| LedgerHistory.ProceedIsEffect | internal/api/server.go:202-282 | an operation that goes through leaves the authority the replay gives |
| LedgerHistory.GrowsKeepsRecorded | internal/api/server.go:185-200 | an accept keeps ids, notes, count, epochs and authority what the transactions on the chain say |
| LedgerRuns.StepKeepsInvariant | internal/api/server.go:178-344 | every clean step keeps the chain sound and recorded, and a restart changes nothing but the requests in flight |
| LedgerRuns.RestartRefinement | internal/api/ledger_store.go:198-285 | after any clean run from the seed, the tables rebuild exactly the state in memory |
| LateFailures.TablesRebuildExactly | internal/api/server.go:79-83 | over every run, late failures included, the tables can be read back exactly when no accept committed on top of a block that was pushed in memory and not written, with no restart in between |
| LateFailures.RestartRepairs | internal/api/server.go:331-335 | while they can, a restart brings memory and tables together again: from it on, until the next late failure, the tables rebuild exactly the state in memory |
| LateFailures.StrandsExactly | internal/api/server.go:317-335 | when an accept leaves its block in memory alone: the operation goes through and a nonce exists, but the database fails or a member_add names an enrolled device |
| LateFailures.ReenrolmentHoles | internal/api/ledger_store.go:373-380 | enrolling an enrolled device again passes every guard, and after the next create the tables cannot be read back |
| ReenrolmentRun.ReenrolledServerStops | internal/api/server.go:213-235 | one such run from a seeded stream, whatever the codecs: enrolment, enrolment again, create, and the restart fails |
| LedgerRuns.StrictPowEpochs | internal/api/server.go:195-200 | in every clean run, restarts included, the transaction at height i carries epoch (i - 1) / 1000, because count, id set and chain stay in step |
| LedgerRuns.BlocksWereChecked | internal/api/server.go:637-674 | every block above genesis carries its own id, a signature that verifies and its work, and its author was authorized by the blocks its checks saw |
| LedgerRuns.BlocksAreDrafted | internal/api/server.go:292-315 | after every clean run each block above genesis is version 1, counts as many transactions as leaves its mmr_root commits to, carries the clock of its accept, and its hash is not above its 32-byte target; header, transaction and leaf are hashed each in its own domain |
| LedgerRuns.AuthorityIsReplay | internal/api/server.go:202-282 | members, authorized keys and key epoch are the replay of the chain's transactions |
| LedgerAuthority.LastEnrolmentCounts | internal/api/server.go:213-235 | a device's record is the signing key, encryption key and label of its last enrolment on the chain |
| LedgerAuthority.GrantAuthorizesDevice | internal/api/server.go:260-277 | a bundle on the chain authorizes the signing key of every enrolled device it grants to, the revoked one included |
| LedgerAuthority.OwnerIsAlwaysAuthorized | internal/api/server.go:254-256 | the owner is authorized after every clean run |
| LedgerAuthority.UnauthorizedExactlyWhenRevoked | internal/api/server.go:260-277 | along a chain a key authorized below j is unauthorized below i exactly when a bundle in between revokes it and nothing since grants it |
| LedgerAuthority.CreatesCarryTheLastRotation | internal/api/server.go:203-211 | under any interleaving every create carries the epoch of the last bundle below it, and epochs never decrease along the chain |
| LedgerAuthority.EpochsGrow | internal/api/server.go:257-261 | key epochs never decrease and every bundle increases them |
| LedgerAuthority.AuthorUnauthorizedExactly | internal/api/server.go:658-674 | with checks and accepts interleaved, a block's author is unauthorized by the blocks below it exactly when a bundle between its check and the block revokes the key and nothing since grants it |
| LedgerAuthority.StaysAuthorized | internal/api/server.go:203-261 | a revocation opens a greater epoch, so a create that named an epoch open at its check, and every other operation, goes through only under an author still authorized |
| LedgerAuthority.OnlyPrematureCreatesOutliveTheirKey | internal/api/server.go:203-211 | over all interleaved runs the author of every block is authorized by the blocks below it, unless the block is another key's create that named, at its check, an epoch not open yet |
| LedgerAuthority.PrematureOutlivesItsKey | internal/api/server.go:658-674 | and every such create does, when the owner's bundle that opens its epoch and revokes its author comes between its check and its accept |
| RevocationRace.RevokedAuthorAppends | internal/api/server.go:658-674 | one such run from a seeded stream, whatever the codecs: check, bundle, accept, and a block whose author is authorized neither below it nor after it |
| LedgerAuthority.AcceptIgnoresKeys | internal/api/server.go:178-344 | the accept decides every operation without looking at the authorized keys, so it cannot notice a revocation since the check |
| LedgerAuthority.AuthorsAreAuthorized | internal/api/server.go:658-674 | with requests handled one at a time every block is checked directly below itself, and its author is authorized by the replay of the blocks below |
| LedgerAuthority.RevokedKeyNeedsTheOwner | internal/api/server.go:260-277 | over all interleaved runs a block by a revoked key follows a grant by the owner since, or is a create checked before the revocation that named an epoch not open then |
| Peer.TablesHold | internal/api/peer.go:167-207 | the rewritten tables hold exactly the candidate's rows |
| Peer.DedupHashesHold | internal/api/peer.go:187-198 | the id table holds exactly the hashes of the candidate's transactions |
| Peer.DedupNotesHold | internal/api/peer.go:199-205 | the note table holds exactly the notes of its creates |
| Peer.ReorgReplaces | internal/api/peer.go:129-142 | a valid candidate with strictly more work and no clashing rows becomes the chain, under the old authority, and the state is sound again |
| Peer.ReorgElseKeeps | internal/api/peer.go:65-142 | in every other case nothing changes |
| Peer.ReorgOutcomeExactly | internal/api/peer.go:122-142 | which outcome a reorganisation ends with, each as an if-and-only-if on validity, work, row clashes and the database |
| Peer.ServedChainIsValid | internal/api/peer.go:69-120 | a sound ledger's chain passes another node's validation exactly when its genesis block does, and is credited the ledger's own work |
| Peer.ValidMeetsTarget | internal/api/peer.go:65-120 | a valid chain starts at the anchor with 32 zero bytes before it, and no block with a 32-byte target has a hash above it |
| Peer.ValidTransactions | internal/api/peer.go:95-108 | every transaction of a valid chain is version 1 with fields of the right lengths, and its leaf is the tagged hash of its tagged hash |
| PeerRuns.RewriteExactly | internal/api/peer.go:167-207 | the rewrite goes through exactly when transaction hashes and created notes are distinct |
| PeerRuns.MixedRunAdvances | internal/api/peer.go:122-142 | over all clean runs of accepts, restarts and reorganisations the state stays sound, work never decreases and the anchor stays |
| PeerRuns.RunKeepsChainValid | internal/api/peer.go:65-120 | from a valid genesis block the chain held after every such run is valid for any node with the anchor, and its blocks' work is the counted work |
| PeerRuns.RunStores | internal/api/peer.go:167-186 | over every such run exactly the blocks of the last reorganisation are stored as whole blocks, the others as transactions |
| Convergence.ServedRowsDistinct | internal/api/peer.go:167-207 | a chain grown by accepts has distinct rows, or two of its transactions collide |
| Convergence.AdoptingConverges | internal/api/peer.go:16-20 | a node that adopts another's chain ends with the greater work of the two, and on reorganising with the other's leaves, peaks and headers |
| Paging.ClampLimit | internal/api/server.go:725-736 | the limit is at least one and at most the cap of its kind, unchanged in between, and the default when not positive |
| Paging.ReadPage | internal/api/server.go:465-505 | a page is exactly the records asked for and names the next height exactly when the chain goes on; the error cases are exact |
| Paging.FetchPeerChain | internal/api/peer.go:249-292 | the download ends, and gives exactly the chain as its last request saw it: no gap, no duplicate, at least the chain at the first request, a prefix of every later one |
| Serving.RunContinues | internal/api/server.go:317 | without reorganisations a server only appends |
| Serving.ServesItsChain | internal/api/server.go:828-838 | without reorganisations every stored body is servable, and the blocks read off the records are the chain |
| Serving.ServableExactly | internal/api/peer.go:16-20 | over runs with reorganisations the bodies that can be served are exactly those appended by an accept since the last one, so the chain can be downloaded exactly when there was none |
| Serving.Download | internal/api/peer.go:249-292 | downloading from a running server succeeds and gives the valid chain of one of the states it went through |
| Serving.TipProofs | internal/api/server.go:507-529 | a served proof verifies against the tip's mmr_root with one leaf per block, and one with 32-byte peaks that verifies names the transaction at its index, or a collision is given |
| Serving.HeaderPagesAreHeaders | internal/api/server.go:486-505 | a page of headers served by a running server is the headers and hashes of its chain |
| Serving.TipFixesHistory | internal/sync/chain.go:326-349 | two chains whose tips have one mmr_root have the same transactions, equally many, or two inputs with one hash are given |
| CatchUp.ServedInOrder | internal/sync/catchup_headers.go:72-120 | a chain from a valid genesis block reaches the client in parent-first order, every header valid in itself |
| CatchUp.FollowedWork | internal/sync/chain.go:251-270 | in the client's tree each header of the chain carries the work of the chain up to it |
| CatchUp.TipIsBest | internal/sync/chain.go:368-382 | when every target is below 2^256 - 1 the server's tip is the client's best header |
| CatchUp.HeaderPhase | internal/sync/catchup_headers.go:72-130 | after the header phase the tree holds exactly the served chain, all of it active, with the server's work at the tip |
| CatchUp.BranchIsChain | internal/sync/chain.go:326-339 | a block's branch has the server's leaves up to it |
| CatchUp.BodyPhase | internal/sync/catchup_headers.go:178-197 | over a tree that holds the chain the loop finishes exactly when every transaction has its own id, its author's signature and the client's stream, otherwise it stops at the first that has not |
| ClientFollowsServer.ClientCatchesUp | internal/sync/catchup_headers.go:42-140 | a fresh client of any running server makes its chain active with its work; the finalizing loop finishes exactly when the genesis transaction is genuine and all transactions name the client's stream, otherwise it stops at the first that does not; and when it finishes the client holds the server's accumulator at every height |
| ClientFollowsServer.FollowServer | internal/sync/catchup_headers.go:72-201 | the manager's own run, header by header and then block by block, has that outcome |
| ForeignStreamRun.ForeignTransactionStopsClient | internal/sync/chain.go:321-324 | one run in which a server takes a transaction signed for another stream, and a client that follows its chain and stops at that block with the malformed-header error |
| ClientOutbox.Outbox.Enqueue | internal/storage/sqlite/outbox.go:33-57 | a row is inserted, or an existing id gets the status; malformed rows are refused |
| ClientOutbox.Outbox.ListPending | internal/storage/sqlite/outbox.go:59-71 | every pending row once, the oldest first and rows of one time by id |
| ClientOutbox.ListingIsUnique | internal/storage/sqlite/outbox.go:61-65 | that order leaves one listing of a table |
| ClientOutbox.IdBeforeExactly | internal/storage/sqlite/outbox.go:61-65 | one id precedes another exactly when it has the smaller character where they first differ, or is a proper prefix |
| ClientOutbox.OldestFirst | internal/storage/sqlite/outbox.go:61-65 | along a listing times never decrease, and rows of one time come by id |
| ClientOutbox.Outbox.SetStatus | internal/storage/sqlite/outbox.go:104-116 | only the named row changes, and only its status; an error exactly when it is missing |
| ClientOutbox.SyncClient.SyncOne | internal/sync/client.go:166-210 | the server's state and the row after one submission, for every reply and every loss |
| ClientOutbox.SyncClient.SubmitPending | internal/sync/client.go:150-164 | every pending row is submitted once, the oldest first |
| SubmissionRuns.ReplyIsTrue | internal/api/server.go:674-694 | a reply that settles or fails a row tells the truth about the chain after it |
| SubmissionRuns.NetStepKeepsInvariant | internal/sync/client.go:166-210 | every step of server, network and client keeps replies and rows true |
| SubmissionRuns.NothingTwice | internal/api/server.go:185-193 | no transaction id is in two blocks and no note id in two creates |
| SubmissionRuns.SyncedIsOnChain | internal/sync/client.go:193-199 | a synced row holding a create has its note on the chain, or a block's transaction has the same id and another body |
| SubmissionRuns.DeliveredRowExactly | internal/sync/client.go:185-210 | a delivered row is synced exactly when its transaction was appended, is genuine and on the chain, or is genuine and its note is; it stays pending exactly when it is genuine and refused for a stale epoch alone; it is failed in all other cases, and no other row changes |
| SubmissionRuns.UndeliveredRow | internal/sync/client.go:166-184 | a row that does not decode is failed, and any other keeps its status when the request or the reply is lost |
| SubmissionRuns.RetryChangesNothing | internal/api/server.go:186-188 | resubmitting a transaction on the chain changes nothing and is answered with the current count |
| SubmissionRuns.RetryGetsOriginalExactly | internal/api/server.go:422-430 | that is the original receipt exactly when nothing was appended since |
| SubmissionRuns.RetryFailsExactly | internal/api/server.go:658-688 | resubmitting a transaction that is on the chain is answered with a failing reply exactly when its author is no longer authorized, since that check comes before the search for duplicates |
| SubmissionRuns.RetriedRowFails | internal/sync/client.go:166-210 | its row is then marked failed although the transaction is on the chain |
| RevocationRace.AcceptedRowFails | internal/sync/client.go:166-210 | one such run from a seeded stream: the reply to the accept is lost, the retry is refused, and the row is failed with its create on the chain |
| SubmissionRuns.FailedRowOnChain | internal/sync/client.go:199-210 | a failed row's transaction is on the chain only if a failing reply was sent before its block was appended or under a chain that does not authorize its author |
| SubmissionRuns.SubmissionIsARun | internal/sync/client.go:166-210 | what the client's code does for one row is one of these runs |
| SubmissionRuns.SubmissionsAreARun | internal/sync/client.go:150-164 | and so is what it does for all pending rows |

## Left out

- Cryptography, canonical CBOR (section 4.2 of RFC 8949), JSON and base64, SQL text, files, HTTP and WebSocket: library code or plumbing. Tables with primary keys stand for the database, one accept or one reply for a request.
- Several streams: one is modelled; the program keeps them apart by stream id, and an unknown stream id is not part of this model.
- The anchor log, the event hub and backups: written after the fact and read by nothing modelled.
- Ledger runs that go on after an unclean step: LateFailures follows the tables there; the chain, history and authority theorems stop at it.
- Membership and dedup ids after a reorganisation: the code stores transaction hashes there and says membership is out of scope (internal/api/peer.go:22-26). Runs with reorganisations are about the chain, its work, its validity and what can be served.
- LedgerService.LedgerStream.PostTransaction: from the decoded transaction on; body size limits before decoding and the status for an undecodable body are not modelled. The authorized-key check and the target lookup, two lock acquisitions, are one step.
- ChainManagement.ChainManager.ApplyHeader: assumes that no other header was stored under the same SHA-256 hash, since heights and links are then ambiguous.
- ChainManagement.ChainManager.FinalizeBlock: assumes the same.
- ChainManagement.ChainManager.SeedGenesis: on an empty store, as its documentation demands of callers.
- ChainManagement.ChainManager.FinalizeActiveChain: the blocks come from a table of what the server answers with, an answer is the block of the stored header, and headers are one above their parents; the code checks neither. What other answers do to one header is said in FinalizeFailures. Saving the tip and the notes is not modelled.
- FinalizationLoop.LoopExactly: likewise.
- Finalization.RunKeepsFinalized: for runs that finalize a block after its parent, with the block's own body and header, on headers one above their parent; the code checks none of these. FinalizedRootExactly says what another header does.
- HeaderTreeProofs.HeaderConfluence: for headers that pass their own checks and whose hashes do not collide; a header that fails is rejected wherever it comes.
- Serving.Download: the peer's chain at each request is an input; network and decoding errors other than an unservable body are not modelled.
- ClientFollowsServer.ClientCatchesUp: for a client without a saved tip and a server that does not grow meanwhile, targets below 2^256 - 1 and header hashes that do not collide.
- ClientFollowsServer.FollowServer: likewise; the pages of headers arrive as one list, and saving headers between the phases is not modelled.
- ClientOutbox.SyncClient.SyncOne: status 409 with code DUPLICATE_TRANSACTION, which the server never sends, has no counterpart.
- 2^63 blocks: heights are stored as int64, so steps, restarts included, are modelled below that many blocks.
- The legacy catch-up (internal/sync/anchor.go), resuming from a saved tip, retargeting, the user interface, search and reminders: superseded, or they would add only easy members.
