# CCaaS: a Dafny model of the transaction protocol

CCaaS splits a transactional key/value system into a versioned store, a certifier that decides commits
optimistically (one request at a time, or a batch per epoch), and an engine that runs transactions on the
client's side. This project models the four core pieces (`MemStore`, `Engine`/`Txn`, `ImmediateCertifier`,
`EpochCertifier`) and the two client programs that come with them (bank transfers, read-modify-write
increments), and proves what they guarantee together. `dafny verify dfyconfig.toml` covers the whole project.

## How it is built

Each operation of the source is a function on values (`Storage`, `Certification`, `Execution`). The classes
(`MemStore`, `ImmediateCertifier`, `EpochCertifier`, `Txn`, `Engine`) have the source's fields and loops and are
proved equal to those functions; the loops both certifiers share are in `Loops`. The concurrent system is a
machine of atomic steps over the same functions:

- `Protocol` has any number of transactions. A read takes no certifier lock. A commit is two steps, the
  version-map update (`Accept`) and the store update (`Install`), and every other client may act in between.
  Runs are arbitrary event sequences (`Exec`). `ProtocolSteps` proves that each step keeps one invariant, and
  `ProtocolTheorems` draws the consequences for all runs.
- `ImmediateProtocol` and `EpochProtocol` are the two certifiers as the code has them, error branches included.
  Each of their runs is shown to be a run of `Protocol`, so serializability is proved once and holds of both
  (`Guarantees`). The store's refusal of a commit is a branch in both machines and is proved unreachable.
- The serial reference (`Serial`) knows nothing of versions, buffers or certifiers: it executes whole
  transaction logs one after the other, in place, on an unversioned database.
- `Progress` is the other half: the guarantees are not kept by standing still. From every moment of every run
  either certifier can answer everybody who waits.
- `EpochTheory`, `EpochEffects` and `EpochLimits` are about one epoch: which requests commit, that the commits
  commute, how the two modes compare, and inputs that show each hypothesis is needed.
- `Programs`, `Transfers`, `Increments`, `Workloads` and `Demo` are the client programs. A program is a function
  from what a client has done and read so far to its next call; the workload results follow from
  serializability alone.
- `Delivery` is the message side of the epoch certifier: queue, batches, one-slot channels, drain and panic.

## Model

| member | source | states |
|---|---|---|
| `Guarantees.ImmediateIsSerializable` | pkg/ccaas/immediate.go:59-124 | at every moment of every interleaving, replaying the committed logs serially in commit order gives every logged read (repeated reads and reads of own writes included) its logged value and ends with the values in the store |
| `Guarantees.ImmediateIsStrict` | pkg/ccaas/immediate.go:91-92 | a transaction begun after another's commit returned has a larger commit number |
| `Guarantees.ImmediateCommitsIffCurrent` | pkg/ccaas/immediate.go:63-124 | in any run a request the certifier takes up commits if and only if all its reads are current, under the next number |
| `Guarantees.EpochIsSerializable` | pkg/ccaas/epoch.go:117-217 | the same replay theorem for every way in which requests fall into epochs, with clients reading and queueing while an epoch is processed |
| `Guarantees.EpochIsStrict` | pkg/ccaas/epoch.go:188-190 | the same real-time order for epoch mode |
| `Guarantees.EpochRunsUninterrupted` | pkg/ccaas/epoch.go:143-157 | interleaved with any client activity, a finished epoch has given the answers and reached the state of the certification loop run without interruption |
| `Guarantees.EpochInRunIsGreedy` | pkg/ccaas/epoch.go:143-217 | in every run an epoch with distinct identifiers commits a transaction if and only if its reads match the versions at the epoch's start and no committed transaction with a smaller identifier wrote a key it reads or writes |
| `Guarantees.EpochInRunIsParallel` | pkg/ccaas/epoch.go:178-210 | in every run the commits of such an epoch read the starting snapshot, write disjoint keys, and their records give the same store in any order |
| `Guarantees.SingleEngineIdsDistinct` | pkg/execution/execution.go:45-52 | with one engine the identifiers within an epoch are distinct, so the two results above need no hypothesis |
| `ProtocolSteps.RunKeepsInv` | pkg/ccaas/immediate.go:59-124 | every reachable state satisfies the joint invariant of store, certifier, transactions and committed log |
| `ProtocolSteps.StepKeepsInv` | pkg/execution/execution.go:57-123 | each single step, whoever takes it, keeps that invariant |
| `ProtocolSteps.ReadMatches` | pkg/execution/execution.go:57-83 | if a transaction's reads are all current, a further read returns what a serial execution would find, even while a commit is half installed |
| `ProtocolSteps.StillValid` | pkg/ccaas/immediate.go:107-109 | a commit leaves another transaction's reads current only if it wrote none of the keys they are about |
| `ProtocolSteps.SyncChangesNothing` | pkg/ccaas/immediate.go:40-56 | with no commit under way, synchronising in the middle of a run changes nothing, so no later verdict |
| `ProtocolTheorems.RunIsSerializable` | pkg/storage/storage.go:51-72 | the replay theorem for all protocol runs, whichever certifier produced them |
| `ProtocolTheorems.ReplayedRead` | pkg/execution/execution.go:62-82 | what a replayed read returns: the transaction's own last write to the key, or the value left by the transactions before it |
| `ProtocolTheorems.RealTimeOrder` | pkg/ccaas/immediate.go:91-92 | commit order respects real time |
| `ProtocolTheorems.NoAba` | pkg/storage/storage.go:67-69 | one version of a key stands for one value throughout a run |
| `ProtocolTheorems.VersionNamesItsCommit` | pkg/storage/storage.go:51-72 | a stored value was installed by the commit whose number is its version, or by the initial load |
| `ProtocolTheorems.ValidReadsAgree` | pkg/execution/execution.go:67-82 | if a read set validates, every store read of a key, first or repeated, returned the value that is current |
| `ProtocolTheorems.StaleStaysStale` | pkg/ccaas/epoch.go:160-176 | a recorded read that is no longer current never becomes current again, reads of missing keys included |
| `ProtocolTheorems.BookkeepingMatchesLog` | pkg/execution/execution.go:86-94 | in any run an active transaction's write buffer is the last-write-wins fold of its write list, and its read set has exactly one entry for each key it read from the store: none for a key it only read back from its own writes |
| `ProtocolTheorems.ForeignMeans` | pkg/execution/execution.go:62-67 | a key counts as read from the store exactly if some read of it precedes every own write to it |
| `ProtocolTheorems.ReadsStayCurrent` | pkg/execution/execution.go:67-77 | with no commit under way, a further read leaves the read set as current, or as stale, as it was |
| `ProtocolTheorems.FinishedStaysFinished` | pkg/execution/execution.go:125-133 | a transaction that is over stays over in every later state: no operation is logged for it, its fields stay, and it enters no log it was not in |
| `ProtocolTheorems.RefusedNeverLogged` | pkg/execution/execution.go:110-114 | a transaction that was refused or given up is in no later log |
| `ProtocolTheorems.ReturnIsFinal` | pkg/execution/execution.go:97-117 | once Commit has returned the transaction is over, committed or aborted as its answer says, and from then on it is in the log if and only if the answer was a commit |
| `ProtocolTheorems.AbortIsFinal` | pkg/execution/execution.go:120-123 | after Abort the transaction is aborted with an empty buffer in every later state, and is in a later log only if it was in the log already |
| `ProtocolTheorems.CertifierMatchesStore` | pkg/ccaas/immediate.go:91-117 | with the lock free the version map is the store's projection with versions in 1..commitSeq; during a commit it is ahead exactly on the keys being written, and the store accepts the commit |
| `ProtocolTheorems.CommitsAreNumbered` | pkg/ccaas/immediate.go:91-123 | committed answers carry the consecutive numbers after the starting counter, each once, and correspond one to one to the committed logs |
| `ProtocolTheorems.NoFutureVersions` | pkg/execution/execution.go:69-77 | no recorded read is of a version above the commit counter |
| `ProtocolTheorems.ReloadStartsAfresh` | pkg/ccaas/ccaas.go:8-10 | loading data between transactions and synchronising yields a proper initial state, above all earlier commit numbers |
| `ImmediateProtocol.ImmediateRefinesProtocol` | pkg/ccaas/immediate.go:59-124 | every run with this certifier is a protocol run; the branch for a store error is dead |
| `ImmediateProtocol.HalvesMakeSubmit` | pkg/ccaas/immediate.go:59-124 | the two atomic halves, taken together, are the SubmitCommit of the class |
| `EpochProtocol.EpochRefinesProtocol` | pkg/ccaas/epoch.go:91-217 | every run with this certifier is a protocol run, although it drops the store's error, and each epoch stays on the course of its loop |
| `Progress.ImmediateAnswersAll` | pkg/ccaas/immediate.go:59-124 | from every moment of every run the certifier can answer all blocked clients by its own steps alone |
| `Progress.WaitersAreQueued` | pkg/ccaas/epoch.go:91-122 | in every run a client that waits has its request in the queue or in the unanswered part of the batch under way |
| `Progress.EpochAnswersAll` | pkg/ccaas/epoch.go:104-157 | from every moment of every run the epochs can answer all blocked clients without the help of any client |
| `Progress.CommitRunsThrough` | pkg/execution/execution.go:97-117 | whenever the certifier is free, an active transaction can be taken through a whole Commit: with current reads it ends committed, its buffer stored under the next number and its log entry last; otherwise it ends aborted and nothing else has changed |
| `EpochTheory.GreedyGeneral` | pkg/ccaas/epoch.go:153-217 | the exact verdict whatever the identifiers: reads current at the start, no key read was won by an earlier request, every key written was last won under the same identifier or not at all |
| `EpochTheory.EpochIsGreedy` | pkg/ccaas/epoch.go:143-217 | the exact verdict over distinct identifiers |
| `EpochTheory.SmallestValidCommits` | pkg/ccaas/epoch.go:143-157 | of the requests valid at the start, the one with the smallest identifier commits |
| `EpochTheory.ArrivalOrderIrrelevant` | pkg/ccaas/epoch.go:143-146 | with distinct identifiers, any two arrival orders of a batch give every transaction the same result and the same final state |
| `EpochTheory.KeyAfter` | pkg/ccaas/epoch.go:188-208 | the version map and the claims after a batch, key by key, in terms of the last winner of the key |
| `EpochTheory.LastWriterMeaning` | pkg/ccaas/epoch.go:192-194 | the last winner of a key wrote it and no later winner did; there is none exactly if no winner wrote the key |
| `EpochTheory.WonIsCommitted` | pkg/ccaas/epoch.go:153-156 | published results are the loop's decisions, and an accepted request gets the next number |
| `EpochEffects.EpochIsParallel` | pkg/ccaas/epoch.go:178-210 | committed transactions of an epoch read the starting snapshot, write disjoint keys, and the store accepts their records in any permutation with the same outcome |
| `EpochEffects.ApplyCommutes` | pkg/storage/storage.go:51-72 | records that share no key and are each acceptable can be applied in any order |
| `EpochEffects.EpochRefinesImmediate` | pkg/ccaas/epoch.go:153-217 | immediate mode, fed an epoch's accepted requests in order, commits them all with the same numbers, version map and store |
| `EpochEffects.ModesAgree` | pkg/ccaas/immediate.go:59-124 | when every request writes only keys it has read, and reads no version above the starting counter, both modes give a batch the same answers, reasons included, and the same final state |
| `EpochEffects.ModesAgreeExactly` | pkg/ccaas/epoch.go:178-186 | for any batch: the modes give the same verdicts if and only if no request that is current at its turn writes a key last won under another identifier, and then they agree in everything |
| `EpochLimits.FutureReadSplitsModes` | pkg/ccaas/epoch.go:178-186 | that agreement fails for a read of a version that only this epoch makes |
| `EpochLimits.BlindWritersSplitModes` | pkg/ccaas/epoch.go:178-186 | and for writes of keys that were not read |
| `EpochLimits.EqualIdsShareAKey` | pkg/ccaas/epoch.go:180 | two requests under one identifier both commit a write to the same key |
| `EpochLimits.EqualIdsDependOnArrival` | pkg/ccaas/epoch.go:143-146 | with equal identifiers arrival order can decide who wins |
| `Delivery.EachInOneBatch` | pkg/ccaas/epoch.go:97-122 | every request is in exactly one place: the queue, the running batch or one finished batch |
| `Delivery.SendNeverBlocks` | pkg/ccaas/epoch.go:153-156 | the loop's send always finds an empty slot |
| `Delivery.ExactlyOneAnswer` | pkg/ccaas/epoch.go:91-157 | a request of a finished batch has received exactly one result or finds it in its slot, and it is the certifier's verdict if one was sent, wherever a panic struck |
| `Delivery.DrainAnswersAll` | pkg/ccaas/epoch.go:104-115 | after the drain, every request queued before its swap has its answer |
| `Workloads.ImmediateConservesMoney` | cmd/demo/main.go:121-157 | for any accounts, clients, transfers and interleaving the sum of balances never changes and none goes negative |
| `Workloads.EpochConservesMoney` | cmd/demo/main.go:121-157 | the same under the epoch certifier |
| `Transfers.TransferMoves` | cmd/demo/main.go:132-142 | replaying a committed transfer moves exactly its amount |
| `Transfers.CompleteTransfer` | cmd/demo/main.go:132-153 | the program comes to its commit with exactly the logs of covered transfers |
| `Workloads.ImmediateLosesNoUpdate` | pkg/benchmark/driver.go:77-115 | each key's value is its initial value plus the number of committed transactions that wrote it |
| `Workloads.EpochLosesNoUpdate` | pkg/benchmark/driver.go:77-115 | the same under the epoch certifier |
| `Increments.IncrementRaises` | pkg/benchmark/driver.go:84-98 | replaying a committed increment raises exactly the keys it writes, each by one |
| `Increments.CompleteIncrement` | pkg/benchmark/driver.go:84-98 | the program comes to its commit with exactly the logs that read all keys and write one more than was read |
| `Increments.WritersIsCount` | pkg/benchmark/driver.go:94-98 | the increments counted for a key are those that write it, each once |
| `Programs.CommittedComplete` | cmd/demo/main.go:132-156 | when clients follow their programs, every committed log is that of a finished program |
| `Increments.PickKeys` | pkg/benchmark/driver.go:117-144 | none exactly if fewer different names were drawn than asked for; otherwise as many keys as asked for, all different, being the names of some first part of the draws |
| `Increments.PickFromSlice` | pkg/benchmark/driver.go:146-155 | all the keys, or the first ones after the given swaps: a part of the given keys, of the right number, still distinct |
| `Demo.TransferOnce` | cmd/demo/main.go:132-156 | with no other client at work a transfer commits exactly when the source covers it, takes the amount from one account to the other and touches no third one |
| `Demo.RunTransfers` | cmd/demo/main.go:121-157 | one client's loop commits exactly the transfers that are covered when their turn comes, counts the others as aborted, leaves the fold of the committed ones, keeps the sum and incurs no debt |
| `Demo.OneMoreTransfer` | cmd/demo/main.go:139-156 | a further transfer is carried out and counted if and only if the source covers it |
| `Demo.MovedBalances` | cmd/demo/main.go:139-141 | a transfer takes the amount from the source, adds it to the destination and changes no third account |
| `Demo.SumBalances` | cmd/demo/main.go:171-179 | the printed balances, and their sum |
| `Transfers.TotalIsSum` | cmd/demo/main.go:171-179 | the total over accounts is the sum of the single balances |
| `Transfers.SumAdds` | cmd/demo/main.go:178 | sums are additive, the empty one is 0 and that of one number is the number |
| `Transfers.BalanceReadsBack` | cmd/demo/main.go:176 | a balance is the number stored as text, 0 for a missing account |
| `Certification.ImmediateOutcome` | pkg/ccaas/immediate.go:59-124 | in a joint state a request commits exactly when its reads are current; then it advances counter, map and store together, and otherwise nothing changes |
| `Certification.ImmediateCases` | pkg/ccaas/immediate.go:59-124 | the full answer and new state from any state: a stale read aborts with the key, the version seen and the version found of the first stale entry and changes nothing; otherwise the request commits under the next number, or, if the store refuses, aborts with the store's error after counter and map have moved |
| `Certification.AdvancedByKey` | pkg/ccaas/immediate.go:91-117 | a commit, key by key: written keys at the next version in map and store with the last value written, all others as they were |
| `Certification.FirstStaleIsFirst` | pkg/ccaas/immediate.go:63-89 | the entry reported is the first stale one in the order of the read set |
| `Certification.EpochOutcome` | pkg/ccaas/epoch.go:159-217 | in a joint state an accepted request is applied and the state stays joint |
| `Certification.EpochCases` | pkg/ccaas/epoch.go:159-217 | the full answer and new state of one pass from any state: staleness before conflicts, the first offending entry named with the version found or the winner, nothing changed by a refusal; what passes is answered as committed even if the store refuses it |
| `Certification.FirstConflictIsFirst` | pkg/ccaas/epoch.go:178-186 | the write reported is the first one to a key held under another identifier |
| `Certification.AdvanceKeepsJoint` | pkg/ccaas/epoch.go:188-210 | the store accepts the next record and the next state is joint |
| `Certification.SyncRepairs` | pkg/ccaas/epoch.go:59-75 | from any contents synchronising establishes the joint invariant exactly if no stored version is 0, without lowering the counter |
| `Certification.SyncIsNoOp` | pkg/ccaas/immediate.go:40-56 | in a joint state synchronising changes nothing |
| `Storage.StampInstalls` | pkg/ccaas/immediate.go:99-105 | applying a commit record writes exactly the write buffer at the commit number, duplicate keys included |
| `Storage.ApplyRecord` | pkg/storage/storage.go:55-71 | a record is applied, as a whole, exactly if its number is above the version of each key it writes |
| `Storage.FirstViolationIsFirst` | pkg/storage/storage.go:55-65 | the error names the first write whose version is not above the stored one, with both versions |
| `Storage.LastWriteWins` | pkg/storage/storage.go:67-70 | each key ends with its last write in the record, a key without one stays as it is |
| `Storage.LoadOverwrites` | pkg/storage/storage.go:78-80 | loading replaces the loaded keys and keeps the others |
| `Types.BufferKeepsLast` | pkg/execution/execution.go:91-92 | of the writes to one key the buffer holds the last |
| `Storage.MemStore.constructor` | pkg/storage/storage.go:30-34 | a new store is empty |
| `Storage.MemStore.Get` | pkg/storage/storage.go:36-49 | value and version if present; otherwise not found, with the empty value and version 0 |
| `Storage.MemStore.ApplyCommit` | pkg/storage/storage.go:51-72 | all writes or none: applied exactly if every write raises its key's version, then each key holds its last write and the others are untouched; otherwise the first violation is reported |
| `Storage.MemStore.LoadInitialData` | pkg/storage/storage.go:74-81 | the keys are the old ones and the loaded ones; every loaded key is at version 1 with its value, every other key is untouched |
| `Storage.MemStore.DumpState` | pkg/storage/storage.go:83-96 | a copy of the whole contents |
| `Loops.Scan` | pkg/ccaas/immediate.go:44-52 | the version projection of a dump and its highest version |
| `Loops.FindStale` | pkg/ccaas/epoch.go:161-176 | none if and only if every version seen is the one in the map, a missing key counting as 0; otherwise the first stale entry |
| `Loops.FindConflict` | pkg/ccaas/epoch.go:179-186 | none if and only if no key is claimed under another identifier; otherwise the first write to such a key |
| `Loops.StampAll` | pkg/ccaas/immediate.go:99-105 | the record's writes, in order, at the commit number |
| `Loops.RaiseVersions` | pkg/ccaas/immediate.go:107-109 | the written keys at the commit number, the others as they were |
| `Loops.ClaimKeys` | pkg/ccaas/epoch.go:192-194 | the written keys under the identifier, the others as they were |
| `Immediate.ImmediateCertifier.constructor` | pkg/ccaas/immediate.go:20-37 | starts synchronised with the store |
| `Immediate.ImmediateCertifier.SyncFromStorage` | pkg/ccaas/immediate.go:40-56 | map and counter rebuilt from the store; nothing changes in a joint state |
| `Immediate.ImmediateCertifier.SubmitCommit` | pkg/ccaas/immediate.go:59-124 | computes ImmediateSubmit (spelled out by ImmediateCases), and in a joint state commits exactly the requests whose reads are current |
| `Batches.Sort` | pkg/ccaas/epoch.go:143-146 | a permutation of the batch in which of any two identifiers the earlier is a prefix of the later or has the smaller character at the first difference; equal identifiers in any order |
| `Text.StrLeIsLexicographic` | pkg/ccaas/epoch.go:144-146 | the order on identifiers is lexicographic: prefix first, otherwise the first difference decides |
| `Batches.SortedLexicographically` | pkg/ccaas/epoch.go:143-146 | what being sorted means for any two requests of a batch |
| `Epoch.EpochCertifier.constructor` | pkg/ccaas/epoch.go:36-56 | starts synchronised, with an empty queue |
| `Epoch.EpochCertifier.SyncFromStorage` | pkg/ccaas/epoch.go:59-75 | map and counter rebuilt from the store, queue untouched |
| `Epoch.EpochCertifier.Enqueue` | pkg/ccaas/epoch.go:91-99 | the request joins the end of the queue with a channel of its own |
| `Epoch.EpochCertifier.CertifyTxn` | pkg/ccaas/epoch.go:159-217 | computes one pass of the certification loop (spelled out by EpochCases) |
| `Epoch.EpochCertifier.ProcessEpoch` | pkg/ccaas/epoch.go:117-157 | empties the queue and answers its requests, in sorted order, as EpochRun does |
| `Execution.ReadKeepsCoherent` | pkg/execution/execution.go:69-77 | a read keeps read set and readVersions in step, each key listed once |
| `Execution.WriteKeepsCoherent` | pkg/execution/execution.go:86-94 | a write keeps write buffer and write list in step |
| `Execution.Txn.Check` | pkg/execution/execution.go:125-133 | aborted is reported first, then committed, and no error exactly if neither |
| `Execution.Engine.Begin` | pkg/execution/execution.go:45-52 | a fresh, active, empty transaction named txn- and the raised counter in decimal |
| `Execution.Engine.Read` | pkg/execution/execution.go:57-83 | an own write is returned and leaves no trace; otherwise the stored value, or the empty one, is returned and its version, or 0, recorded unless the key was read before; an inactive transaction gets its error |
| `Execution.Engine.Write` | pkg/execution/execution.go:86-94 | list and buffer extended, nothing else changed, or the error of an inactive transaction |
| `Execution.Engine.Commit` | pkg/execution/execution.go:97-117 | submits identifier, read set and write set; exactly one flag is set as the answer says and nothing else of the transaction changes; a success changes the store by exactly the write buffer at its commit number; an inactive transaction gets its error and nothing changes |
| `Execution.CommitInstallsBuffer` | pkg/execution/execution.go:102-113 | in a joint state a commit that succeeds overlays the store with the write buffer |
| `Execution.Engine.Abort` | pkg/execution/execution.go:120-123 | marked aborted and the buffer emptied, everything else unchanged, whatever the state before |
| `Text.TxnIdInjective` | pkg/execution/execution.go:46-48 | different counters give different identifiers |
| `Text.TenSortsBeforeTwo` | pkg/ccaas/epoch.go:144-146 | identifiers sort as text, not by counter |
| `Text.AtoiItoa` | cmd/demo/main.go:136-141 | numbers survive being written and read back as text |
| `Text.DigitsArePositional` | cmd/demo/main.go:136-137 | digits are read in base ten, the first weighing most |
| `Text.DecimalIsCanonical` | pkg/execution/execution.go:48 | decimal text has no leading zeros, and one digit stands for itself |
| `Text.AtoiReads` | cmd/demo/main.go:136-137 | digits count with or without a sign |
| `Text.AtoiIgnores` | cmd/demo/main.go:136-137 | nothing but digits with at most a sign counts as a number other than 0 |

## Reading the code

- `Engine.Abort` checks nothing, so a transaction that has committed can be marked aborted afterwards; its
  writes stay. The model follows the code.
- The certification of a batch tells requests apart by identifier only. Two requests under one identifier are
  not in conflict with each other over a key (`EpochLimits`).
- The two modes agree on read-modify-write batches only as long as no request names a version that does not
  exist yet. Requests built by the engine never do (`ProtocolTheorems.NoFutureVersions`).

## Left out

- gRPC clients and servers, generated protobuf code and network failures: `MemStore` is the store.
- 64-bit wrap-around: versions, commit numbers and the transaction counter are unbounded.
- Integers out of the machine range: `Atoi` and `Itoa` are exact on all integers, and `Atoi` gives 0 for malformed text.
- Text of abort reasons: a reason is the data the text is formatted from.
- Real time, tickers, goroutine scheduling and the mutexes themselves: atomic steps that may come in any order, guarded by who holds the certifier's lock.
- `sort.Slice` itself: `Batches.Sort` is an insertion sort on a sequence, and only a sorted permutation is promised.
- Blocking inside `SubmitCommit` of the epoch certifier: the class queues the request; the wait and the reply are in the two machines. `Engine` as a class is wired to the immediate certifier.
- `LoadInitialData` while transactions are in flight, and requests submitted after the drain: outside the intended use.
- After a panic: the certifier may be left half updated; only the delivery of answers is covered.
- Random choices in the clients, `pickKeys` running forever on too few keys, and the retry loop: choices are parameters, and a program that retries is one with further transactions.
- `pkg/metrics`, workload presets, flags, output formatting, scripts and deployment.
