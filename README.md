# Libra executor, database front end, Move function targets and in-memory secure storage

This project models four parts of the Libra (Diem) codebase in Dafny.

- **Executor** (`executor.dfy`, module `Executor`). How a transaction's write set updates the accounts the VM read. How the VM's outputs for a block are checked against their Keep/Discard status and folded into a new state tree and transaction accumulator. Which kept transactions `commit_blocks` sends to storage once some of them may already be persisted. How a state-sync chunk is verified, re-executed and saved under the last-chunk rule.
- **LibraDB front end** (`libradb.dfy`, module `LibraDb`). The request-size limit and the conversion of a downward event query into one ascending range. The paging of epoch-ending ledger infos and its completeness check. The clamp of `get_transactions`. The checks `save_transactions` makes before writing. The version checks of `get_account_state_with_proof`. `get_events_by_event_key`, including the in-place reversal of a downward answer.
- **Move prover function target** (`function_target.dfy`, module `FunctionTargets`). `FunctionTargetData` is a class whose spec-block allocator and generated-block map are updated in place. It covers the first free spec-block id, `add_spec_block`, and the callee list without repetitions in first-call order. The read-only view `FunctionTarget` covers `get_spec_on_impl`, `get_bytecode_loc` and `call_ends_lifetime`.
- **In-memory secure storage** (`secure_storage.dfy`, module `SecureStorage`). A class over one map, with `available`, `create`, `get`, `set` and `reset_and_clear`.

Shared data lives in `types.dfy` (module `LibraTypes`, the ledger types) and `common.dfy` (module `Common`, `Option`, `Result`, `u64` bounds).

Conventions used throughout:

- **Hashes.** Every root hash is replaced by the value it summarises. A sparse Merkle tree is the map of account states. An event accumulator is its list of events. The transaction accumulator is its list of transaction infos. Comparing two roots therefore compares contents, which is what a collision-free hash gives.
- **Panics.** Integers are unbounded. A `u64` operation of the source whose exact result would not fit is modelled as an explicit error whose name starts with `Panic…`. So are `expect`, `assert!`, `assert_eq!` and a length mismatch in `itertools::zip_eq`.
- **Outside answers.** What the modelled code gets from outside arrives as a parameter:
  - the VM's outputs and the accounts it read;
  - whether a proof checks;
  - whether the storage write succeeds;
  - what the column-family stores hold;
  - the clock;
  - the validator-set change event key.

## Model

| member | source | states |
|---|---|---|
| SecureStorage.InMemoryStorage.constructor | secure/storage/src/in_memory.rs:19-23 | a new store holds no key |
| SecureStorage.InMemoryStorage.Available | secure/storage/src/in_memory.rs:32-34 | the in-memory store is always available |
| SecureStorage.InMemoryStorage.Create | secure/storage/src/in_memory.rs:36-42 | an existing key is refused with KeyAlreadyExists and the store is unchanged; otherwise exactly that key is added, with the value and the current time |
| SecureStorage.InMemoryStorage.Get | secure/storage/src/in_memory.rs:44-63 | a missing key gives KeyNotSet; a present key gives back its stored value and last-update time |
| SecureStorage.InMemoryStorage.Set | secure/storage/src/in_memory.rs:65-71 | a missing key is refused with KeyNotSet and not inserted; an existing key is overwritten with the value and the current time, and nothing else changes |
| SecureStorage.InMemoryStorage.ResetAndClear | secure/storage/src/in_memory.rs:73-76 | succeeds and leaves the store empty |
| SecureStorage.CreateThenGet | secure/storage/src/in_memory.rs:36-63 | a created key reads back what it was created with; a second create fails; the key set grows by exactly that key and the other entries are unchanged |
| SecureStorage.SetThenGet | secure/storage/src/in_memory.rs:44-71 | set on a missing key fails; once the key exists, a read sees the newest value and time |
| SecureStorage.ResetThenGet | secure/storage/src/in_memory.rs:44-76 | after reset_and_clear every read fails with KeyNotSet |
| FunctionTargets.MaxOrZero | language/move-prover/stackless-bytecode-generator/src/function_target.rs:313-317 | the largest key, or 0 when there are none (`max().unwrap_or(0)`) |
| FunctionTargets.InitialNextFreeSpecBlockId | language/move-prover/stackless-bytecode-generator/src/function_target.rs:313-318 | the first free id is at least 1 and above every given id; it is 1 when no block is given, and otherwise one more than a given id |
| FunctionTargets.FunctionTargetData.constructor | language/move-prover/stackless-bytecode-generator/src/function_target.rs:305-334 | stores the code, types, locations, acquired resources and given blocks; starts with no generated block and the allocator at the first free id; the data is valid (every id in use is below the allocator) |
| FunctionTargets.FunctionTargetData.AddSpecBlock | language/move-prover/stackless-bytecode-generator/src/function_target.rs:337-342 | returns the old counter value, bumps the counter by one and stores the spec under that id; the id was in use neither as a given nor as a generated block, and validity is kept |
| FunctionTargets.FirstOccurrencesHas | language/move-prover/stackless-bytecode-generator/src/function_target.rs:349-358 | dropping repetitions keeps exactly the elements of the list |
| FunctionTargets.FirstOccurrencesNoDuplicates | language/move-prover/stackless-bytecode-generator/src/function_target.rs:349-358 | the list built with `contains` before `push` has no repetitions |
| FunctionTargets.FirstOccurrencesPairOrdered | language/move-prover/stackless-bytecode-generator/src/function_target.rs:349-358 | of two kept entries, the earlier one first occurs earlier in the input |
| FunctionTargets.FirstOccurrencesOrdered | language/move-prover/stackless-bytecode-generator/src/function_target.rs:349-358 | every kept entry comes from the input, and kept entries are in the order of their first occurrence |
| FunctionTargets.CallTargetsElements | language/move-prover/stackless-bytecode-generator/src/function_target.rs:350-356 | a function is a call target iff some instruction is a Call of a Function operation naming it |
| FunctionTargets.FunctionTargetData.GetCallees | language/move-prover/stackless-bytecode-generator/src/function_target.rs:345-359 | every function some Call instruction calls, each once, in the order of its first call |
| FunctionTargets.NoReferences | language/move-prover/stackless-bytecode-generator/src/function_target.rs:289 | true iff no type in the list is a reference |
| FunctionTargets.FunctionTarget.GetBytecodeLoc | language/move-prover/stackless-bytecode-generator/src/function_target.rs:141-147 | the location recorded for the attribute id, else the function's own location |
| FunctionTargets.FunctionTarget.GetSpecOnImpl | language/move-prover/stackless-bytecode-generator/src/function_target.rs:235-248 | a given block id resolves through its code offset in the function's spec; any other id resolves among generated blocks; a missing block is a panic (one per `expect`) |
| FunctionTargets.FunctionTarget.CallEndsLifetime | language/move-prover/stackless-bytecode-generator/src/function_target.rs:288-290 | true iff the function is public and none of its return types is a reference |
| FunctionTargets.GeneratedBlockIsFound | language/move-prover/stackless-bytecode-generator/src/function_target.rs:235-248 | in valid data a generated block is never shadowed by a given one |
| FunctionTargets.AddThenLookup | language/move-prover/stackless-bytecode-generator/src/function_target.rs:337-342 | the block added reads back under the id add_spec_block returned, and every other id reads as before |
| LibraDb.ErrorIfTooManyRequested | storage/libradb/src/lib.rs:115-121 | succeeds iff the number requested is at most the maximum, else TooManyRequested with both numbers |
| LibraDb.GetFirstSeqNumAndLimit | storage/libradb/src/lib.rs:810-820 | fails iff the limit is 0; upward it is the cursor and limit; downward the range ends exactly at the cursor and holds limit items, or every item down to 0 |
| LibraDb.EpochPage | storage/libradb/src/lib.rs:237-241 | the page ends within [start, end] and covers at most limit epochs; "more" holds iff it stops before the end epoch, and then it covers exactly limit epochs |
| LibraDb.StoredEpochEndingsComplete | storage/libradb/src/lib.rs:243-253 | the store yields one ledger info per epoch of the range iff none is missing, and then the i-th is that of epoch start + i |
| LibraDb.GetEpochEndingLedgerInfos | storage/libradb/src/lib.rs:211-255 | a start past the end is BadEpochRange; an end past the latest epoch is EpochStillOpen |
| LibraDb.EpochEndingPage | storage/libradb/src/lib.rs:217-254 | in range, a page succeeds iff every epoch it covers has a stored ledger info, else it fails as corrupt; a successful page holds those ledger infos in epoch order, at most limit of them, and says "more" iff it stops before the end epoch |
| LibraDb.EpochEndingPageBound | storage/libradb/src/lib.rs:199-209 | the public call returns at most 100 ledger infos, and exactly 100 when it says there are more |
| LibraDb.GetTransactionsLimitRange | storage/libradb/src/lib.rs:553-559 | a limit over 1000 is refused; a start past the ledger version or a zero limit is answered empty; otherwise the count is between 1 and the limit, never reaches past the ledger version, and is cut short only by the ledger version; the u64 arithmetic overflows only on a ledger at u64::MAX |
| LibraDb.GetTransactionsLimit | storage/libradb/src/lib.rs:553-559 | the size check, the empty cases and the clamp min(limit, ledger version − start + 1), as one expression; its properties are those of GetTransactionsLimitRange |
| LibraDb.GetTransactions | storage/libradb/src/lib.rs:546-591 | a limit over 1000 is refused with TooManyRequested; a start past the ledger version or a zero limit gives the empty list; otherwise, below a ledger at u64::MAX, the answer has exactly min(limit, ledger version − start + 1) transactions from the start version on, each the stored transaction of its version, or NotFound when the store does not hold them all |
| LibraDb.CheckSaveTransactions | storage/libradb/src/lib.rs:745-777 | the checks of save_transactions in the source's order: an empty batch needs a ledger info, the versions must fit in u64, a ledger info must name the batch's last version and carry the accumulator the store computes; its properties are those of SaveTransactionsAccepted |
| LibraDb.SaveTransactionsAccepted | storage/libradb/src/lib.rs:745-777 | a batch passes the checks iff it is non-empty or comes with a ledger info, its versions fit in u64, and a ledger info names its last version and the accumulator the store computes; an accepted batch always has a last version |
| LibraDb.CheckAccountStateVersions | storage/libradb/src/lib.rs:663-675 | succeeds iff version ≤ ledger version ≤ latest version, with QueriedVersionTooNew or LedgerVersionTooNew otherwise, in the source's order |
| LibraDb.LookupEventsByKey | storage/libradb/src/lib.rs:343-348 | every entry returned is from the key's index and its sequence number lies in [first, first + limit); the answer is no longer than the index |
| LibraDb.LookupEventsByKeyComplete | storage/libradb/src/lib.rs:343-348 | every index entry whose sequence number lies in [first, first + limit) is returned |
| LibraDb.LookupEventsByKeySorted | storage/libradb/src/lib.rs:343-348 | an index sorted by sequence number gives an answer sorted by sequence number |
| LibraDb.LatestSequenceNumber | storage/libradb/src/lib.rs:332-334 | none iff the key has no event, else the latest sequence number |
| LibraDb.QueryCursor | storage/libradb/src/lib.rs:327-337 | a downward query from u64::MAX starts at the latest sequence number, or at 0 when there is none; any other query starts where it asks |
| LibraDb.QueryKeys | storage/libradb/src/lib.rs:339-362 | the index range of the query, emptied when a downward query's latest entry lies below the cursor; its properties are stated by EventsByKeyDirections and DescendingStartsAtCursor |
| LibraDb.FetchEvents | storage/libradb/src/lib.rs:364-382 | on success, one event per index entry, each the stored event at that version and position, whose sequence number matches the index; when it succeeds and which errors it gives are stated by FetchEventsOkIff |
| LibraDb.FetchEventsFailsEarly | storage/libradb/src/lib.rs:364-382 | the first failing read decides the error of the whole fetch |
| LibraDb.FetchEventsOkIff | storage/libradb/src/lib.rs:364-382 | the fetch succeeds iff every index entry's event is stored and carries the entry's sequence number; a failure is NotFound or IndexBroken |
| LibraDb.ReverseInPlace | storage/libradb/src/lib.rs:383-385 | the array afterwards is the reverse of the array before |
| LibraDb.EventsByKey | storage/libradb/src/lib.rs:318-388 | the answer of get_events_by_event_key as one expression; GetEventsByEventKey computes it, and EventsByKeyDirections and DescendingStartsAtCursor state its properties |
| LibraDb.GetEventsByEventKey | storage/libradb/src/lib.rs:318-388 | the method computes exactly the specified answer of the event query: the size check, the cursor, the range, the out-of-range emptying, the reads with their consistency check, and the reversal when going down |
| LibraDb.ReadEvents | storage/libradb/src/lib.rs:364-385 | the reads of the index entries, in order, compute exactly the specified fetch: the missing event and the broken-index errors stop at the first entry that has one |
| LibraDb.EventsByKeyDirections | storage/libradb/src/lib.rs:339-385 | upward, the answer is exactly the fetch of the index range from the start number on, so on success one event per entry with its sequence number, in index order; downward, it is Ok([]) when the cursor lies past the latest entry of a non-empty range, and otherwise it succeeds iff the fetch of the range does, and then is the fetched range, last one first |
| LibraDb.EventsByKeyAscending | storage/libradb/src/lib.rs:339-385 | upward, the query is exactly the fetch of the index range from the start number on |
| LibraDb.EventsByKeyAscendingOkIff | storage/libradb/src/lib.rs:326-385 | an upward query within the limit succeeds iff every index entry in its range has its event stored under the entry's sequence number, and then answers exactly those stored events in index order |
| LibraDb.DescendingStartsAtCursor | storage/libradb/src/lib.rs:350-362 | a non-empty downward answer starts at the cursor itself, and every event in it lies in the limit sequence numbers that end at the cursor |
| Executor.UpdateAccountBTree | executor/src/lib.rs:867-876 | a value write sets the path, a deletion removes it, and every other path keeps what it had |
| Executor.VacantWriteAllowed | executor/src/lib.rs:826-835 | a write to an account not read is allowed iff the transaction is a user transaction with a write-set payload; otherwise the error is that of as_signed_user_txn or of the payload check |
| Executor.ApplyWriteEntry | executor/src/lib.rs:813-842 | one write op: it fails only on an account not read in a transaction that may not create accounts; the touched address is recorded; other accounts are unchanged; the counter goes up by one exactly when a read account holds nothing at that moment; an account not read is created holding just this write |
| Executor.ApplyWriteSet | executor/src/lib.rs:811-844 | the first loop of process_write_set as one expression, each write op applied by ApplyWriteEntry in order, stopping at the first refusal; its properties are stated by the ApplyWriteSet lemmas below |
| Executor.ApplyWriteOp | executor/src/lib.rs:813-843 | the body of the first loop computes exactly one ApplyWriteEntry step |
| Executor.ApplyWriteSetFails | executor/src/lib.rs:811-844 | a write set fails iff the transaction may not create accounts and writes to an account not read; on success the touched addresses are exactly those of its ops, and the accounts are the old ones plus the touched ones |
| Executor.ApplyWriteSetUntouched | executor/src/lib.rs:811-844 | an account the write set does not touch keeps its resources |
| Executor.ApplyWriteSetLookup | executor/src/lib.rs:811-844 | read your writes: every path holds what the last write to it put there, nothing after a deletion, and what it held before if it was never written |
| Executor.ApplyWriteSetCreatedBound | executor/src/lib.rs:816-824 | the created-account counter never exceeds the number of write ops |
| Executor.NoCreationWithoutEmptyAccount | executor/src/lib.rs:816-824 | with no deletion and no empty account to begin with, the counter stays at zero and no account becomes empty |
| Executor.CreatedMonotone | executor/src/lib.rs:816-824 | the counter never goes down along a write set |
| Executor.FirstWriteToEmptyAccountCounted | executor/src/lib.rs:816-824 | a first write to a read account that holds nothing is counted |
| Executor.ApplyWriteSetFailsEarly | executor/src/lib.rs:811-844 | a failing write op ends the write set with its error |
| Executor.ApplyWriteSetWritesRead | executor/src/lib.rs:811-848 | every account a successful write set touched is in the account map it leaves, so the `expect` on its lookup never panics |
| Executor.WriteSetResult | executor/src/lib.rs:846-864 | the blobs are exactly the touched accounts; the new state tree holds the touched accounts' new states and keeps every untouched account of the previous tree |
| Executor.CollectBlobs | executor/src/lib.rs:846-850 | the new state of every touched address; the lookup's `expect` never fails |
| Executor.ProcessWriteSet | executor/src/lib.rs:797-865 | the two loops compute exactly the specified write-set result, errors and early return included |
| Executor.ExecutedTrees.Version | executor/src/lib.rs:901-908 | none iff the accumulator is empty, else the number of leaves minus one |
| Executor.ProcessedVMOutput.GetStateComputeResult | executor/src/lib.rs:266-285 | one compute status per transaction, each that transaction's status, with the accumulator root and the validator set of the output |
| Executor.StateComputeResultVersion | executor/src/lib.rs:266-268 | the version consensus is told is the executed trees' version, or 0 when the trees hold no transaction |
| Executor.ValidatorSetChange | executor/src/lib.rs:777-784 | the data of the first event with the validator-set change key, or none when no event has that key |
| Executor.FindValidatorSetChange | executor/src/lib.rs:777-784 | the inner loop with its break finds exactly that first event |
| Executor.CheckStatus | executor/src/lib.rs:727-757 | a kept output must write something; a discarded one must write and emit nothing |
| Executor.TxnInfoOf | executor/src/lib.rs:727-745 | the transaction info built for a kept output, committing to the transaction, the state tree after it, its events and its gas; none for a discarded output. It has no contract of its own: ProcessOneStep and ProcessVmOutputsFacts state that an info exists exactly for kept outputs |
| Executor.ProcessOne | executor/src/lib.rs:711-785 | one iteration of process_vm_outputs as one expression: the write set, the status checks, the data entry, the info of a kept output and the validator-set change; its properties are stated by ProcessOneStep |
| Executor.ProcessPrefix | executor/src/lib.rs:710-785 | the loop over the first n pairs as one expression; its properties are stated by ProcessPrefixFacts and ProcessPrefixFailsEarly |
| Executor.ProcessOutput | executor/src/lib.rs:711-785 | one iteration computes exactly the specified step: the write set, the status checks, the transaction info of a kept output, the data entry and the validator set |
| Executor.ProcessOneStep | executor/src/lib.rs:711-785 | one iteration appends one data entry that agrees with its output, and appends its transaction info only if the output is kept |
| Executor.ProcessPrefixFacts | executor/src/lib.rs:710-785 | after n outputs there are n data entries, each agreeing with its output; the infos collected are those of the kept entries, one per kept output |
| Executor.ProcessPrefixData | executor/src/lib.rs:710-785 | after n outputs there are n data entries, entry i carrying output i's status, events and gas, a transaction info iff it is kept, and passing the status checks |
| Executor.ProcessPrefixInfos | executor/src/lib.rs:710-785 | after n outputs the infos collected are those of the kept data entries in order, one per kept output among the first n |
| Executor.ProcessPrefixStep | executor/src/lib.rs:710-785 | the loop over n + 1 pairs is the loop over n pairs followed by one more iteration on pair n |
| Executor.ProcessPrefixFailsEarly | executor/src/lib.rs:711-718 | a failing iteration ends the loop with its error |
| Executor.ProcessVmOutputs | executor/src/lib.rs:692-795 | computes exactly the specified result: the work on the shorter length is done before a zip_eq length mismatch panics |
| Executor.ProcessVmOutputsResult | executor/src/lib.rs:692-795 | process_vm_outputs as one expression, with the zip_eq panic after the work on the shorter length; its properties are stated by ProcessVmOutputsFacts |
| Executor.ProcessVmOutputsFacts | executor/src/lib.rs:692-795 | on success the lengths agree; each data entry carries its output's status; an info exists exactly for kept outputs; kept outputs write something and discarded ones nothing; the new accumulator is the parent's with exactly the kept infos appended, in order |
| Executor.KeepFilter | executor/src/lib.rs:455-468 | the kept transactions of one block, in order, paired with their data; its properties are stated by KeepFilterKeepsKept |
| Executor.KeptInBlocks | executor/src/lib.rs:449-468 | the kept transactions of every block, in order, with the zip_eq panic for a block whose lengths differ; its properties are stated by KeptInBlocksFails |
| Executor.PlanCommit | executor/src/lib.rs:469-522 | the skip arithmetic of commit_blocks with its overflow and assert panics; its properties are stated by PlanCommitCorrect |
| Executor.KeepFilterKeepsKept | executor/src/lib.rs:455-468 | only kept transactions go to storage, all of them, in order: one entry per kept transaction, at the position given by the kept ones before it |
| Executor.KeptInBlocksFails | executor/src/lib.rs:455-459 | collecting fails iff some block's transactions and data differ in length, and then with the zip_eq panic |
| Executor.BlockKept | executor/src/lib.rs:454-468 | the inner loop over one block computes exactly its kept transactions, or the zip_eq panic when the block's transactions and data differ in length |
| Executor.PlanCommitCorrect | executor/src/lib.rs:469-522 | the skip arithmetic succeeds iff the ledger version fits, matches the last block's accumulator, is not below the kept count, and the persisted count lies between the first kept version and the ledger version; the skipped count is the persisted overlap, the batch starts at the persisted count and ends at the ledger version; the final assert_eq fails exactly when storage holds more than the ledger info names |
| Executor.Skip | executor/src/lib.rs:512-515 | `skip(n)`: the elements after the first n, none when there are fewer |
| Executor.CommitBlocksResult | executor/src/lib.rs:435-539 | commit_blocks as one expression: the batch it sends to storage, or its panic; CommitBlocks computes it and CommitBlocksBatch states its properties |
| Executor.CommitBlocks | executor/src/lib.rs:435-539 | the nested loops and the arithmetic compute exactly the specified batch, with every panic |
| Executor.CommitBlocksBatch | executor/src/lib.rs:490-527 | a batch starts at the persisted count and ends at the ledger version; it holds the last kept transactions and carries the ledger info; storage's checks accept it when its accumulator is the one the ledger info commits to |
| Executor.VerifyChunk | executor/src/lib.rs:660-689 | an invalid proof is an error; an empty chunk skips nothing; a non-empty chunk without a first version panics; otherwise the chunk is accepted iff it does not start past the synced ledger, and its transactions before the synced count are skipped |
| Executor.CheckNoDiscard | executor/src/lib.rs:582-588 | succeeds iff every output is kept |
| Executor.LedgerInfoToCommit | executor/src/lib.rs:615-635 | the ledger info goes with the chunk iff the chunk ends at its version, and then the local accumulator must match it; a non-last chunk with nothing new is not saved; the u64 sums panic on overflow |
| Executor.ChunkOutputFacts | executor/src/lib.rs:590-598 | with every output kept there is one data entry per transaction, and the synced accumulator grows by one leaf per transaction, keeping its old leaves |
| Executor.ExecuteChunkOutputs | executor/src/lib.rs:582-598 | a discarded output is refused; with every output kept the result is exactly that of process_vm_outputs, errors included; a success has one data entry per transaction and grows the synced accumulator by one leaf per transaction, keeping its old leaves |
| Executor.ChunkTxnsToCommit | executor/src/lib.rs:602-611 | the loop builds exactly ChunkBatch: every transaction paired with its data entry, in order |
| Executor.ChunkBatch | executor/src/lib.rs:602-611 | one TransactionToCommit per transaction, the i-th built from the i-th transaction and data entry |
| Executor.SaveChunkResult | executor/src/lib.rs:600-646 | the end of execute_and_commit_chunk as one expression: zip_eq panic, last-chunk rule, storage refusal, save; its properties are stated by SaveChunk and ChunkResultCases |
| Executor.SaveChunk | executor/src/lib.rs:613-646 | computes exactly SaveChunkResult, whose properties SaveChunkSaved states |
| Executor.SaveChunkSaved | executor/src/lib.rs:600-646 | the synced trees change only on a successful save, which needs storage to accept, and then become the output's trees, which have a version; nothing to save only for an empty, non-last chunk; the saved batch is the paired transactions from the synced count on, with the ledger info iff it ends at that version and then the accumulator matches, not empty otherwise, and its versions fit in u64 |
| Executor.ExecuteAndCommitChunk | executor/src/lib.rs:543-655 | computes exactly ChunkResult, whose cases ChunkResultCases, ChunkResultUnsaved and ChunkSavedBatch state |
| Executor.ChunkResult | executor/src/lib.rs:543-655 | execute_and_commit_chunk as one expression; its cases are stated by ChunkResultCases |
| Executor.ChunkResultCases | executor/src/lib.rs:556-646 | every way the chunk can end: a verification error, a discarded output, a processing error, a last-chunk error and a storage refusal are each the error returned; a non-last chunk with nothing new ends without saving; otherwise exactly the paired batch is saved with the chosen ledger info and the synced trees become the processed trees |
| Executor.ChunkResultUnsaved | executor/src/lib.rs:543-646 | a chunk that is not saved leaves the synced trees as they were; one with nothing to save had no outputs and does not end at the ledger info |
| Executor.ChunkSavedInversion | executor/src/lib.rs:543-646 | a saved chunk passed verification, had no discarded output and was processed, and its outcome is that of saving the processed outputs |
| Executor.ChunkSavedBatch | executor/src/lib.rs:543-655 | a saved chunk needs storage to accept it and every output kept; its batch starts at the synced count, holds the tail of the chunk with one entry per output, carries the ledger info iff it ends at that version and then the accumulator matches, and is otherwise not empty; the synced trees grow by exactly the batch, keep their old leaves and have a version |
| Executor.ChunkBatchAccepted | executor/src/lib.rs:636-640 | a chunk's batch passes storage's checks when storage computes the accumulator the executor computed |

## Left out

- Hashing, the sparse Merkle tree, the accumulators and their proofs are not modelled. Roots are the contents they summarise, as described above. Proof verification (`TransactionListWithProof::verify`, `SparseMerkleProof`) is the parameter `proofValid`. Event proofs and transaction-info proofs are not part of the answer.
- LibraDb.GetTransactions: the `fetch_events` argument and the `events` part of the answer are left out, as are the transaction infos and the range proof; the model returns the transactions and the first version only.
- The VM, RocksDB and the column-family stores are not modelled. The VM's outputs, the accounts the VM read, what the stores hold, and whether `save_transactions` succeeds are parameters. A failure of `V::execute_block`, of a store read, or of `get_latest_ledger_info` and `get_latest_version` is not modelled. The `?` after those calls is left out.
- `save_transactions` writing, sealing and committing the change set, and waking the pruner, are not modelled. Its checks are. The accumulator root the store computes is the parameter `computedRoot`.
- `AccountStateBlob::try_from` (serialization) cannot fail in the model; a blob is the account's map itself. The state tree update's `expect` cannot fail either.
- `ValidatorSet::from_bytes` is not modelled. The validator set is the bytes of the announcing event. The change event key is a parameter.
- Metrics, counters, logging and `prune_state_tree` are not modelled. The per-transaction account-creation counts that `commit_blocks` keeps only for a counter are dropped. The logging-only subtractions `num_leaves() - 1` in `execute_and_commit_chunk` and `latest_epoch - 1` in the epoch error message are left out. They would underflow only on an empty ledger.
- SecureStorage.InMemoryStorage.Get: the LCS encode/decode copy of an Ed25519 key is a copy of the same bytes, so its failure paths are left out. The `Policy` argument of `create` is ignored by the source and is not a parameter. `GetResponse::new` stamps the time, which is the parameter `now`.
- FunctionTarget::new (proxy maps and modify targets), the annotations, the rewritten spec, pragmas and the `Display` implementation are not modelled. Spec conditions, types and bytecodes other than calls are small stand-ins.
- FunctionTargets.InitialNextFreeSpecBlockId, FunctionTargets.FunctionTargetData.AddSpecBlock: ids are unbounded naturals, so the `usize` overflow of `+ 1` is not modelled.
- Executor.ProcessWriteSet: the source updates the account map in place through `&mut`; the model returns the updated map, and the next transaction reads it.
- Executor.ExecutedTrees.Version: leaf counts are unbounded naturals, not `u64`. An accumulator cannot hold 2^64 leaves.
- Executor.ExecuteAndCommitChunk: the `synced_trees` argument is updated in place by the source; the model returns the new synced trees.
- Concurrency (the `RwLock` around the stores and the pruner thread) is not modelled.
