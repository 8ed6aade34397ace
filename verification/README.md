# Verified model of the OP Succinct proposer, aggregation program, witness oracle and challenger

OP Succinct proves an OP Stack chain with range proofs and aggregates them into one proof per on-chain
output. This project models the parts of it that keep state over many steps, and proves what those
steps keep.

- **The proof-request scheduler** of the Go proposer: a table of SPAN and AGG requests that a loop
  extends, completes, retries, splits, aggregates, dispatches and submits. `Scheduler` is the transition
  system over the table (`Step`, `Enabled`, `Apply`, `Runs`, `Reachable`). `ProofDb.ProofDB` is the
  database and `Proposer.OutputSubmitter` holds the loop's stages as imperative methods; every stage
  is proved to be a run of that transition system, so the whole-run theorems apply to them. `Invariant`
  proves one invariant (`Inv`) over all steps from `Partition` (spans) and `Aggregates` (aggregates);
  `Measure` proves the retry bound and `Splitting` the splitting rule and its depth; `Guarantees` draws the results; `Contract` adds the output oracle.
- **The two safe-head range splitters**, Go and Rust (`SafeHeads`).
- **The aggregation program** (`Aggregation`), **the host code that fetches its headers** (`Headers`), and
  the path from the table to the program's output (`EndToEnd`).
- **The recording and replaying preimage oracles** (`Oracles`) and **blob reassembly** (`Blobs`).
- **The fault-proof challenger** (`Challenger`).

`dafny verify dfyconfig.toml` checks all of it.

## Assumptions

- A row's primary key is its position in the table; rows are appended, never deleted. A query's answer
  is any listing of the matching rows, ordered by start block where the source orders, with ties open.
- One run is one database lifetime from an empty table. A restart on a kept database is a run of steps
  (`OutputSubmitter.Restart`). Database calls succeed, and each stage or request outcome is atomic.
- A row is retried, or moved on to PROVING, only while it is WITNESSGEN or PROVING (WITNESSGEN for the
  move). The database write itself is unconditional, so this guard is in the step.
  `Guarantees.RetryPartitionIff` and `Guarantees.LateUpdateIff` show that the partition of blocks is kept
  exactly when the row has not failed before, so the guard is what the design needs.
- A dispatched row is WITNESSGEN before the next stage runs. The source sets that status at the start of
  the request goroutine.
- The maximal span length is positive, the contract's next block number is above its latest one, and
  block numbers do not wrap around at 64 bits.
- Finalized heads, contract answers, prover verdicts, witness-server replies, time-outs, block
  timestamps, transaction outcomes and L1 and L2 node answers are arguments.
- Hashes are symbolic datatypes and so injective. Which boot infos have a valid range proof is an
  arbitrary predicate. The L2 node's output root is an arbitrary function of the block.
- The preimage reader is deterministic.

Where code and comments disagree the model follows the code. The example in the comment at
`utils/host/src/block_range.rs:110` cuts (49,90) at 69; the loop cuts it at 79. The comment at
`utils/client/src/oracle/store_oracle.rs:85` says a cached value always has the buffer's length; a value
cached by a plain read need not, and `Oracles.StoreOracle.GetExact` states when the copy panics. The
comment at `fault_proof/src/lib.rs:524` says all challenged games of the window are resolved; the loop
stops before the latest game, as `Challenger.ChallengerLoop.ResolveGames` states. The comment at
`proposer/op/proposer/range.go:157` starts new ranges one block after the highest end block; the code
starts them at it. The comment at `proposer/op/proposer/driver.go:656` says stage 5 requests all
waiting proofs; the code requests one.

## Model

| member | source | states |
|---|---|---|
| `Guarantees.ExactlyOneLiveSpan` | proposer/op/proposer/range.go:156-201 | In every reachable table each block from the first requested one up to `GetLatestEndBlock` lies in exactly one span that has not failed, and that span has 1 to the maximal number of blocks |
| `Invariant.StepKeeps` | proposer/op/proposer/driver.go:605-678 | Every step of the loop keeps the whole invariant: partition of blocks, nesting, backed and unique aggregates, one checkpoint per aggregate, failure counts, caps |
| `Invariant.RunKeeps` | proposer/op/proposer/driver.go:605-678 | So does every run, and along it rows keep their kind and range, completed spans stay with their proofs, and checkpoints never change |
| `Invariant.ReachableInv` | proposer/op/proposer/driver.go:605-678 | Every table reachable from the empty one satisfies the invariant |
| `Partition.RetryKeeps` | proposer/op/proposer/prove.go:93-136 | Failing a live span and asking again for it, or for its halves, keeps the partition of the same blocks |
| `Guarantees.AggProofsStable` | proposer/op/proposer/db/db.go:411-447 | Once an AGG request exists, the consecutive-proof query over its range succeeds in every later table with the same rows and the same proofs, whatever retries, splits and new ranges happen in between |
| `Guarantees.OneAggPerStart` | proposer/op/proposer/db/db.go:339-374 | For a start block that has an AGG request, in every later table all its AGG requests share one end block and exactly one of them has not failed |
| `Guarantees.OneCheckpointPerAgg` | proposer/op/proposer/prove.go:150-185 | Every AGG request past UNREQ holds an L1 checkpoint, and over any number of failures and retries all AGG requests of a range that hold one hold the same one |
| `Measure.RetryBound` | proposer/op/proposer/prove.go:93-136 | Inside a fresh span of n blocks every run makes at most n-1 splits and at most 2(n-1) failures of multi-block requests; after that many only single-block requests are left |
| `Guarantees.InsertedSpanBound` | proposer/op/proposer/prove.go:93-136 | The same bound for every span from the moment stage 1 inserts it |
| `Measure.RunPays` | proposer/op/proposer/prove.go:93-136 | Between two boundaries, over every run, failures so far plus failures still possible never rise, live spans rise by exactly the number of splits, and the blocks they cover stay the same |
| `Splitting.RetryRule` | proposer/op/proposer/prove.go:93-136 | A retried span is replaced by two requests if and only if it has more than one block and either cannot be executed or another request of its range had failed; the two cover its range and their lengths differ by at most one; otherwise the same range is asked for again |
| `Splitting.NestedHalves` | proposer/op/proposer/prove.go:117-128 | In every reachable table, of any two spans ever created one strictly inside the other, the inner has at most half the blocks of the outer, rounded up |
| `Splitting.SplitDepth` | proposer/op/proposer/prove.go:117-128 | In every reachable table, below the maximal length n, d nested splits leave spans of m blocks with 2^d (m-1) <= n-1, so ranges nest at most to the logarithm of n |
| `Guarantees.NestedAndFailTwice` | proposer/op/proposer/prove.go:98-136 | Any two spans ever created are nested or disjoint, and a multi-block range has at most two failed requests |
| `Guarantees.BoundaryKept` | proposer/op/proposer/prove.go:98-136 | A span boundary stays one in every later table: a live span begins or ends there and none straddles it |
| `Guarantees.SplitNeverRecreated` | proposer/op/proposer/prove.go:98-136 | A range that failed and is no longer asked for as a whole is never asked for as a whole again |
| `Guarantees.SpansUnderCaps` | proposer/op/proposer/prove.go:187-214 | In every reachable table SPAN requests respect both concurrency caps, although AGG requests bypass the check |
| `Guarantees.MaxContiguousExact` | proposer/op/proposer/db/db.go:379-407 | In every reachable table and from every start block there is exactly one block that ends a chain of completed spans no completed span continues, and the sorted scan answers a block if and only if it is that one |
| `Guarantees.RetryPartitionIff` | proposer/op/proposer/prove.go:86-139 | Retrying a span keeps the partition exactly when the span had not failed already |
| `Guarantees.LateUpdateIff` | proposer/op/proposer/db/db.go:110-118 | A late PROVING write to a span keeps the partition exactly when the span has not failed in the meantime |
| `Guarantees.FailedSpanReachable` | proposer/op/proposer/prove.go:86-139 | The failing side of both is met: a run inserts, dispatches and retries a span, and then a second retry of its failed row, or a late status write to it, breaks the partition |
| `Contract.SubmissionsTile` | proposer/op/proposer/driver.go:303-337 | If the contract's height moves only by submissions, the submitted ranges tile the blocks from the first height to the current one in order, each of at least the submission interval |
| `Contract.HeightIsBoundary` | proposer/op/proposer/driver.go:303-337 | The contract's height is always a boundary of a live span, at or below the highest requested block |
| `Contract.OneSubmitCandidate` | proposer/op/proposer/driver.go:311-326 | At most one completed aggregate starts at a given height |
| `Contract.AllUnderCaps` | proposer/op/proposer/prove.go:149-207 | In every run with the contract at most one aggregate is waiting or being proved, and it starts at the height; so requests of both kinds together exceed each cap by at most one, although aggregates are not checked against them |
| `Contract.InsertionsAreOneCut` | proposer/op/proposer/range.go:145-198 | For any sequence of finalized heads, rising or not, interleaved with all other steps, everything stage 1 ever inserted is one cut of the blocks up to the highest head, with less than one span left over |
| `Contract.TableRunInWorld` | proposer/op/proposer/driver.go:605-678 | The steps of a loop iteration that uses the contract's own answers are a run of the scheduler with the contract, so the submission results apply to it |
| `Contract.WorldTableRuns` | proposer/op/proposer/driver.go:605-678 | Conversely every run with the contract is a run of the scheduler |
| `Spans.FullSpansResume` | proposer/op/proposer/range.go:145-154 | Cutting up to a block and later on from where that cut ended gives the same spans as cutting once |
| `Aggregates.ContiguousScan` | proposer/op/proposer/db/db.go:379-407 | The scan's end is reached by a chain of completed spans and no completed span starts there |
| `Aggregates.ConsecutiveScan` | proposer/op/proposer/db/db.go:411-447 | Over a range that completed spans fill, the scan succeeds and returns the proofs of a chain from its start to its end |
| `Aggregates.ConsecutiveMeaning` | proposer/op/proposer/db/db.go:424-444 | In any table the scan succeeds exactly when the spans it reads are a chain over the range; a gap error names where a chain of them stops and where the next one starts, an incomplete error where the chain ends short |
| `ProofDb.ProofDB.NewEntry` | proposer/op/proposer/db/db.go:90-107 | Appends one UNREQ row and changes nothing else |
| `ProofDb.ProofDB.UpdateProofStatus` | proposer/op/proposer/db/db.go:110-118 | Sets one row's status whatever it was; an unknown id changes nothing |
| `ProofDb.ProofDB.AddFulfilledProof` | proposer/op/proposer/db/db.go:140-185 | Succeeds exactly for a PROVING row without a proof, which becomes COMPLETE with it; otherwise nothing changes and the error says whether the row is missing, not PROVING, or has a proof |
| `ProofDb.ProofDB.CountWithStatus` | proposer/op/proposer/db/db.go:188-200 | The number of rows with a status |
| `ProofDb.ProofDB.AddL1BlockInfoToAggRequest` | proposer/op/proposer/db/db.go:203-242 | Writes the checkpoint to every waiting AGG row of the range and succeeds exactly when there is one such row |
| `ProofDb.ProofDB.GetLatestEndBlock` | proposer/op/proposer/db/db.go:245-257 | The highest end block of all rows, or none for the empty table |
| `ProofDb.ProofDB.Select` | proposer/op/proposer/db/db.go:260-275 | Lists each matching row exactly once |
| `ProofDb.ProofDB.GetNextUnrequestedProof` | proposer/op/proposer/db/db.go:278-315 | The waiting AGG row with the lowest start block, else the waiting SPAN row with the lowest, else none because nothing waits |
| `ProofDb.ProofDB.TryCreateAggProofFromSpanProofs` | proposer/op/proposer/db/db.go:339-374 | Queues an aggregate up to the contiguous end exactly when none is in flight from that block and the end reaches the minimum |
| `ProofDb.ProofDB.GetMaxContiguousSpanProofRange` | proposer/op/proposer/db/db.go:379-407 | The loop computes the contiguous end of the ordered completed spans |
| `ProofDb.ProofDB.GetConsecutiveSpanProofs` | proposer/op/proposer/db/db.go:411-447 | The loop returns the proofs of the ordered completed spans exactly when they are a chain over the range, and else the first gap or where they stop short |
| `Proposer.OutputSubmitter.SplitRangeBasic` | proposer/op/proposer/range.go:145-154 | The loop yields as many full spans as fit |
| `Proposer.OutputSubmitter.GetRangeProofBoundaries` | proposer/op/proposer/range.go:156-201 | Stage 1 is one step: full spans from the highest end block, or from the contract's height in an empty table, up to the head |
| `Proposer.OutputSubmitter.RetryRequest` | proposer/op/proposer/prove.go:86-139 | The row fails and what is asked for instead is appended, by the rule that `Splitting.RetryRule` states |
| `Proposer.OutputSubmitter.ProcessProvingRequests` | proposer/op/proposer/prove.go:22-61 | Stage 2 is a run of completions with the proofs of their verdicts and of retries for the reasons of their verdicts, so an unexecutable span is split: no other row changes, it stops early exactly when some PROVING row gets no answer, every PROVING row is settled by its verdict if it does not stop, and settled or untouched if it does |
| `Proposer.OutputSubmitter.ProcessWitnessgenRequests` | proposer/op/proposer/prove.go:64-80 | Stage 3 is a run of retries and nothing else: exactly the timed-out WITNESSGEN rows fail and are asked for again |
| `Proposer.OutputSubmitter.Restart` | proposer/op/proposer/driver.go:175-185 | A restart is a run of retries and nothing else: exactly the WITNESSGEN rows fail and are asked for again |
| `Proposer.OutputSubmitter.DeriveAggProofs` | proposer/op/proposer/prove.go:236-257 | Stage 4 is at most one step: it queues the aggregate up to the contiguous end, or one is in flight, or the end is below the minimum |
| `Proposer.OutputSubmitter.RequestQueuedProofs` | proposer/op/proposer/prove.go:141-231 | Stage 5 is at most one dispatch, of the next unrequested row and of nothing else; an AGG row leaves with a checkpoint, taken over from a failed request of its range if one has it and else from the contract; otherwise nothing waits, only SPAN rows wait and a cap is reached, or no checkpoint could be had |
| `Proposer.DispatchHappens` | proposer/op/proposer/prove.go:141-231 | A waiting aggregate is dispatched whatever the counts, provided a checkpoint is recorded; without one, a waiting span is dispatched if and only if the requests in WITNESSGEN, and in WITNESSGEN or PROVING, are fewer than their caps; in both cases a lowest one |
| `Proposer.OutputSubmitter.FailedCheckpoint` | proposer/op/proposer/prove.go:150-185 | Finds the checkpoint of a failed request of the same range, and none only if none has one |
| `Proposer.OutputSubmitter.HasCapacity` | proposer/op/proposer/prove.go:187-207 | True exactly when both caps leave room |
| `Proposer.OutputSubmitter.RecordAndSend` | proposer/op/proposer/prove.go:150-185 | Recording a checkpoint finds exactly one waiting row, the one being dispatched, so the single-row query never fails |
| `Proposer.OutputSubmitter.PrepareProofRequest` | proposer/op/proposer/prove.go:259-289 | For every row of a table that satisfies the invariant the request body is built without error; an AGG body holds the proofs of a chain of completed spans over exactly its range |
| `Proposer.OutputSubmitter.RequestProof` | proposer/op/proposer/prove.go:292-325 | The end of a request is a run: a refused row fails and is asked for again, an accepted one is PROVING, a mock one COMPLETE with its proof, and no other row changes |
| `Proposer.OutputSubmitter.SubmitAggProofs` | proposer/op/proposer/driver.go:303-337 | Picks a completed aggregate from the contract's height with the highest end block, and none only if there is none |
| `Proposer.OutputSubmitter.Tick` | proposer/op/proposer/driver.go:605-678 | One iteration is a run of steps on the contract's answers that passes through all stages in order, each with its contract; it ends early exactly at an unanswered prover query or a checkpoint that cannot be had, and else names the aggregate to submit |
| `SafeHeads.GetL1HeadForL2Block` | proposer/op/proposer/range.go:23-50 | The first L1 block from the end block's origin whose safe head reaches the end block, and none only if there is none |
| `SafeHeads.SplitRangeBasedOnSafeHeads` | proposer/op/proposer/range.go:70-142 | If from the start block on L1 origins rise with L2 blocks and each safe head that is read has its origin at or before the L1 block it is read at, the Go spans tile the range exactly, are cut at every collected head strictly inside and otherwise only when they have the maximal number of blocks, and equal the Rust loop's on the same heads; it fails exactly when no L1 block up to the latest reaches the end |
| `SafeHeads.CollectedBeyond` | proposer/op/proposer/range.go:97-120 | Of the collected heads only the one at the L1 head reaches the end block |
| `SafeHeads.GoTilesIff` | proposer/op/proposer/range.go:122-139 | On any sorted heads the Go loop tiles the range exactly when one head, and only one, reaches its end |
| `SafeHeads.RustTilesIff` | utils/host/src/block_range.rs:158-174 | On any sorted heads the Rust loop tiles the range exactly when some head reaches its end |
| `SafeHeads.GoEqualsRustIff` | utils/host/src/block_range.rs:158-174 | The two loops agree exactly when at most one head reaches the end |
| `SafeHeads.GoInvertedSpan` | proposer/op/proposer/range.go:122-139 | With two heads past the end the Go loop emits an inverted span and the Rust loop does not |
| `SafeHeads.GoCutsAtHeads` | proposer/op/proposer/range.go:122-139 | Every head strictly inside the range ends a span |
| `SafeHeads.BothRight` | proposer/op/proposer/range.go:122-139 | When one head and only one reaches the end, both loops give spans that tile the range, are cut at every inner head, and are short only at a head or at the end |
| `SafeHeads.RightCutUnique` | utils/host/src/block_range.rs:104-110 | There is exactly one way to cut a range like that, so those properties determine the result |
| `SafeHeads.CutGo` | proposer/op/proposer/range.go:122-139 | The nested Go loops compute the cut the results here are about, and every span shorter than the maximum ends at a head or at the end |
| `SafeHeads.CutRust` | utils/host/src/block_range.rs:158-174 | So do the Rust ones, with the same promise |
| `SafeHeads.SplitRangeBasicRust` | utils/host/src/block_range.rs:88-102 | The Rust basic split tiles the range exactly: it is the Go basic split plus the remainder |
| `Aggregation.RunGuest` | programs/aggregation/src/main.rs:17-105 | The program finishes exactly when the boot infos are non-empty, sequential in root and config and verified, and the headers are linked up to the checkpoint and contain every L1 head; the output runs from the first pre-root to the last post-root; when it stops, the assertion it stops at does not hold |
| `Aggregation.WalkHeaders` | programs/aggregation/src/main.rs:49-77 | The reverse walk with found flags succeeds exactly when the headers are linked to the checkpoint and contain every L1 head |
| `Aggregation.GuestSound` | programs/aggregation/src/main.rs:27-101 | If the program finishes, its output transition is in every transitive relation that contains the certified transitions under its config, and every boot info's L1 head is an ancestor of the checkpoint or the checkpoint |
| `Aggregation.LinkedAncestor` | programs/aggregation/src/main.rs:56-68 | Each walked header is an ancestor of the checkpoint along parent hashes, or the checkpoint |
| `Headers.GetEarliestL1Head` | utils/host/src/fetcher.rs:564-579 | The lowest-numbered of the boot infos' headers; fails exactly on no boot infos or an unknown hash |
| `Headers.FetchHeadersInRange` | utils/host/src/fetcher.rs:604-614 | The chain's headers from start to end inclusive, nothing for an inverted range; fails exactly on an unknown number |
| `Headers.GetHeaderPreimages` | utils/host/src/fetcher.rs:618-635 | Fetching succeeds exactly when there are boot infos and all hashes are known, and gives exactly the chain's headers from the lowest-numbered L1 head to the checkpoint, none if that head is above it; they satisfy the program's walk exactly when no head is above the checkpoint |
| `EndToEnd.Aggregate` | proposer/succinct/bin/server.rs:217-310 | If the completed spans within an AGG row's own range carry honest boot infos with L1 heads up to its canonical checkpoint, the sub-proofs the database selects and the fetched headers pass every assertion, and the output is the checkpoint, the roots at the row's start and end, and its end block |
| `EndToEnd.SelectedBoots` | proposer/op/proposer/db/db.go:411-447 | The boot infos of a chain of completed spans are sequential from the root at its start to the root at its end |
| `Oracles.StoreOracle.Get` | utils/client/src/oracle/store_oracle.rs:71-80 | A read answers as the live reader does and caches what it answers |
| `Oracles.StoreOracle.GetExact` | utils/client/src/oracle/store_oracle.rs:82-94 | An exact read panics exactly when the cached value has another length than the buffer, and otherwise answers as the live reader does |
| `Oracles.InMemoryOracle.PopulateFromStore` | utils/client/src/oracle/in_memory_oracle.rs:46-62 | The copying loop yields the recorded cache |
| `Oracles.InMemoryOracle.Get` | utils/client/src/oracle/in_memory_oracle.rs:67-73 | Answers from memory, or that the key is not found |
| `Oracles.InMemoryOracle.GetExact` | utils/client/src/oracle/in_memory_oracle.rs:75-79 | Also panics on another length |
| `Oracles.ReplayExact` | utils/client/src/oracle/store_oracle.rs:71-94 | For every sequence of queries without a flush, each query that was answered while recording is answered from memory exactly as the reader answered it, and a plain read that failed fails again |
| `Oracles.RecordThenReplay` | utils/client/src/oracle/in_memory_oracle.rs:46-79 | Queries put to the recording oracle after its last flush and then to its copy: every answered query gets the same answer again, the reader's own, and a plain read succeeds from the copy exactly when the reader has the value |
| `Oracles.RecordedFaithful` | utils/client/src/oracle/store_oracle.rs:71-94 | Everything in any recorded cache is what the reader says |
| `Blobs.BigEndianRoundTrip` | utils/client/src/oracle/in_memory_oracle.rs:139-140 | Reading back a number written in big-endian bytes that are enough for it gives that number |
| `Blobs.BigEndianInverse` | utils/client/src/oracle/in_memory_oracle.rs:139-140 | Writing the number read from big-endian bytes gives those bytes back |
| `Blobs.NameParts` | utils/client/src/oracle/blob_provider.rs:61-65 | The 80-byte name of a blob element, or of the KZG proof at index 4096, gives back its commitment and its index |
| `Blobs.RecordBlob` | utils/client/src/oracle/blob_provider.rs:37-117 | Succeeds exactly when the reader has the commitment, every name, every element and the KZG proof in their sizes, and returns the reader's elements; the blob is left in the cache with all names and its proof, and every blob entry of the cache is one that this reading makes |
| `Blobs.GetBlob` | utils/client/src/oracle/blob_provider.rs:37-117 | From memory the same loop succeeds exactly when everything it asks for is there in the right sizes, and returns the blob the cache holds |
| `Blobs.GatherReflects` | utils/client/src/oracle/in_memory_oracle.rs:133-166 | Visiting a blob entry whose name has zero padding and an index up to 4096 adds exactly the element it names to its commitment's blob, whatever has been visited before |
| `Blobs.NeverOverwritten` | utils/client/src/oracle/in_memory_oracle.rs:152-165 | A slot that holds data keeps it whatever entry is visited next |
| `Blobs.GatherFailsIff` | utils/client/src/oracle/in_memory_oracle.rs:137-165 | A blob entry stops the loop exactly when its name is there with another length, or its value has the wrong size for the proof or for the free slot it would fill |
| `Blobs.Verify` | utils/client/src/oracle/in_memory_oracle.rs:104-170 | In every iteration order and on every cache the loop succeeds only if every Keccak and every SHA-256 key is the hash of its value and there is no precompile key, and if the names of the blob entries are plain (zero padding, index up to 4096) what it has gathered is what the cache holds; on a cache recorded by blob reads names are plain and those checks are all it takes to succeed |
| `Blobs.GatheredIsBlob` | utils/client/src/oracle/in_memory_oracle.rs:127-185 | Data and KZG proof gathered for a commitment are the blob and the proof that reading the blob gives |
| `Blobs.VerifyThenRead` | utils/client/src/oracle/in_memory_oracle.rs:122-198 | On any cache: if verification passes, the hash of a blob read afterwards is the SHA-256 hash of its commitment, and if names are plain the blob and its proof are exactly what was handed to the batch check |
| `Blobs.RecordVerifyReplay` | utils/client/src/oracle/in_memory_oracle.rs:46-198 | Recorded, copied, verified and read again: recording succeeds exactly when the reader has the blob and verification exactly when the recorded entries pass their hash checks; the second reading gives the recorded blob, and exactly that blob and its proof are handed to the batch check |
| `Challenger.OldestFrom` | fault_proof/src/lib.rs:320-412 | The lowest-index game from an index on that is unchallenged, open and wrong, and none only if there is none |
| `Challenger.ChallengerLoop.GetOldestChallengableGame` | fault_proof/src/lib.rs:320-412 | The scan with its skips finds the oldest challengeable game of the window |
| `Challenger.ChallengerLoop.HandleGameChallenging` | fault_proof/bin/challenger.rs:94-111 | Challenges that game if the transaction is accepted and changes nothing else |
| `Challenger.ChallengerLoop.ShouldAttemptResolution` | fault_proof/src/lib.rs:422-442 | Resolution is attempted exactly when the oldest game has no parent or its parent is no longer in progress |
| `Challenger.ChallengerLoop.ResolveGames` | fault_proof/src/lib.rs:447-567 | Nothing happens when the parent of the oldest game is unsettled; else exactly the challenged games in progress past their deadline are resolved, from the oldest on and the latest game excepted, up to the first whose transaction does not go through |
| `Challenger.ChallengerLoop.Tick` | fault_proof/bin/challenger.rs:128-145 | One round is one look followed by a round of resolutions on the games it leaves |
| `Challenger.OnlyWrongChallenged` | fault_proof/src/lib.rs:320-412 | In every run every game this challenger has challenged claims a root that differs from the computed one |
| `Challenger.ChallengeIsWon` | fault_proof/src/lib.rs:447-520 | A challenged game nobody proves stays as it is until its new deadline; after it, a completed round that looks at it makes the challenger win, with claim and block unchanged |
| `Challenger.OpenOrOver` | fault_proof/src/lib.rs:360-376 | A wrong game in progress is open to a challenge exactly as long as, once challenged, it is not due for resolution |
| `Challenger.LookTakesOldest` | fault_proof/bin/challenger.rs:94-111 | An accepted look removes exactly the lowest-index pending game |
| `Challenger.Drained` | fault_proof/bin/challenger.rs:128-145 | With no new games and no deadline passing, n looks challenge exactly the n oldest pending games, so as many looks as pending games leave none |
| `Challenger.NothingEscapes` | fault_proof/bin/challenger.rs:132-133 | From any state whose challengeable games form a queue of length q: while the backlog of creations over accepted looks stays within the number of games the window holds, no game leaves the window while it can still be challenged, whatever moves and rejected looks occur |
| `Challenger.NothingEscapesEver` | fault_proof/bin/challenger.rs:132-133 | The same for every run from the empty factory, in which only wrong claims are challenged |
| `Challenger.SafeIff` | fault_proof/bin/challenger.rs:132-133 | The exact condition: a sequence of creations and looks, accepted or not, lets no game escape for any choice of games if and only if its backlog never exceeds window + 1 |
| `Challenger.Overflows` | fault_proof/src/lib.rs:320-412 | Once the backlog exceeds window + 1, creating wrong games that stay open lets one leave the window unchallenged |
| `Challenger.BurstSafeIff` | fault_proof/bin/challenger.rs:132-133 | A burst of creations without a look is safe exactly when the window holds all of it |
| `Challenger.PacedNeverEscapes` | fault_proof/bin/challenger.rs:132-133 | If at most one game is created between two accepted looks, as the source asks, no game escapes any window |

## Left out

- Blobs.Verify: does not say what is gathered from a cache in which a blob entry has a name that is not plain, because no blob reading makes such a name.
- Partial database failures inside a stage and interleavings of request goroutines within a stage; steps are atomic.
- The prover request id, request and update times, and the time-out computation; a time-out is an input.
- The dispute-game-factory form of the submission transaction, which carries the same output and proof to another contract.
- The wait for the next output and the retry of a failed on-chain transaction; a submission lands or does not.
- Database and RPC errors that end an iteration in a stage other than the prover query and the checkpoint.
- Contents of AGG proofs and their verification on chain; a submission only moves the contract's height.
- 64-bit wrap-around of block numbers, and truncation of a blob element index to the guest's 32-bit word; recorded indices are at most 4096.
- KZG batch verification, SP1 proof verification, Keccak and SHA-256 themselves, and all serialization formats.
- The 32-byte encoding of preimage keys; it is one-to-one, so the memory cache is modelled with the same keys.
- Hints sent before a preimage is read; they change no cache.
- The range program, derivation and execution, which rest on libraries outside the repository.
- The challenger's clock is read once per look, not once per scanned game; times never go back.
- The fault-proof proposer and the Solidity contracts beyond the effect of submitting, challenging and resolving.
- Validated and rolling block ranges (a finalized-head lookup and a bounds check), cost estimation, metrics, configuration and command-line tools.
