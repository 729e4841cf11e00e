# Verified model of the belief store engine's hard core

This project models, in Dafny, the parts of the append-only belief store engine whose correctness
is an argument over whole runs rather than over one function body, and proves that argument:

- the **content-addressed blob writer**: any number of writers and readers interleaving system
  calls on one directory name (`BlobProtocol`, `BlobRuns`, `BlobFiles`);
- the **per-client key file**: the token, root and file formats, the two rule checkers, and
  concurrent `mint`, `revoke` and reader processes over one file (`KeyFormat`, `KeyRules`,
  `KeyHistory`, `KeyFile`, `KeyRuns`, `KeyStore`);
- the **deposit state machine**: two-tier deduplication, ownership confinement, the release of a
  capture's URL, reconciles, REVISIT chains and repeats (`Deposits`, `DepositRuns`,
  `DepositRules`, `DepositRepeats`, `DepositAgain`, `DepositTables`);
- the **writer lock** across processes and tasks, and the **write transaction** with savepoints,
  write units and the captures scan (`WriterLock`, `WriterCommits`, `Transactions`);
- the **rate limiter**: token buckets in a bounded table, and the prepaid per-request meter
  (`RateLimit`);
- the **greedy matcher** of emitted to expected claims (`GreedyMatch`);
- the **change journal** triggers and the cache that trusts them (`ChangeJournal`, `CacheRefresh`);
- three string algorithms: **LIKE escaping**, the **X-Forwarded-For walk** and **date-line
  segmentation** (`LikePattern`, `ForwardedClient`, `DateSegments`), over Python's string
  primitives (`Strings`).

Code that changes things in place is a class (`Limiter`, `RequestMeter`, `JournalledStore`,
`Session`, `Shard`, `Store`, `Tables`) whose methods are tied to functions of the old state, or a
method with a loop; protocols between processes are state machines whose steps are single system
calls or lock operations. The theorems are about those functions and machines.

## Assumptions

- SHA-256 is injective (`BlobProtocol.Injective`, `KeyRules.ConfigContract`), and random tokens of
  the change journal are never drawn twice.
- Floats are reals. Clocks do not run back, and the clock that stamps `captured_at` has moved past
  every earlier capture (`DepositRuns.Fresh`). New entry and snapshot ids are fresh.
- Processes do not crash, and I/O fails only where the code branches on the failure. Commit and
  rollback succeed.
- `particles.core` is not part of this model; its functions are parameters with small contracts:
  project names (`KeyFormat.NamesContract`, `KeyRules.ConfigContract`) and tags
  (`Deposits.ConfigContract`, `DepositRepeats.MaskContract`). Addresses, date lines, whitespace
  and the backend's character equality are parameters without any contract.
- Deposits run one at a time, as under the store's writer lock; that URIs stay unique rests on it.
- Which row an unordered content-hash query yields is arbitrary among those that match.

## Where the code and its documentation differ

- `particles/corpus/blob_io.py:90-95` says a write that returns leaves its blob readable whatever
  another writer did meanwhile. With a foreign regular file planted at the name this fails: a second
  writer that judged the planted file removes the first one's blob before installing its own
  (`BlobRuns.ReturnedBlobCanVanish`). `BlobRuns.ReturnedStaysReadableExactly` proves it holds if and
  only if no such file is there at the start; `BlobRuns.QuiescentNameHoldsBlob` is what holds always.
- `particles/corpus/deposit.py:2324-2336` says an unchanged re-deposit writes no snapshot. It writes
  one each time when an explicit date lies in the future, since the clamp gives a new date each time,
  and when a confined deposit meets another source type, which it may not change.
  `DepositRepeats.RepeatWritesNothingExactly` proves these are the only exceptions for a deposit
  whose entry holds its URI; `FutureDateWritesAgain` and `KeptTypeWritesAgain` are instances. On the
  content-hash tier the second query must also lead to the same entry
  (`DepositAgain.RepeatIsNoOpExactly`, `RejoinsByHashExactly`).
- `particles/corpus/deposit.py:1163-1167` says that both tiers of a capture join only its depositor's
  own entries. A capture that falls back to its file is an ordinary deposit, and joins another
  depositor's entry that holds the file's URI, or one its bytes match that holds no `file://` URI;
  it can also take the file's URI from another depositor's capture.
  `DepositRules.CaptureTouchesAnotherExactly` states exactly when; `CaptureJoinsAnotherByUri` and
  `CaptureJoinsAnotherByHash` are instances.
- `particles/store/candidate_cache.py:230-235` says a change that lands between two statements of a
  refresh is re-read by the next one. It can be missed for good when the changes between the token
  check and the id read prune an entry the cache still needed
  (`CacheRefresh.PrunedBetweenStatementsIsMissed`). `CacheRefresh.RefreshKeepsAgreementExactly` states
  for which journal positions the claim holds.
- Nothing keeps a matcher's threshold or prefilter from being negative. Then the greedy total can be
  less than half of another assignment's (`GreedyMatch.NegativeFloorBreaksTotal`);
  `GreedyMatch.HalfOfTotalExactly` proves a floor of zero or more is the exact condition.
- The token expression ends in `$`, so `parse_token` also accepts one newline after a key.
  `KeyFormat.ParseTokenExact` states exactly that.
- `lookup` does not repeat the two mint rules about how a project's name reads;
  `KeyRules.LookupRulesAreMintRules` states which rules the two checkers share.
- The least-recently-seen eviction refills a bucket early, so a client can exceed r + rT/60
  (`RateLimit.EarlyDropExceedsTheRate`) and `RateLimit.RateBound` counts those evictions. An answer
  changes exactly when the dropped key had less than a token (`RateLimit.EarlyDropDecidesExactly`).

## Model

| member | source | states |
|---|---|---|
| `BlobProtocol.StepKeepsFiles` | particles/corpus/blob_io.py:87-166 | every step keeps: a temporary file is a prefix of the blob, and whatever the name links to or anyone has open is a complete file |
| `BlobProtocol.StepKeepsPlanted` | particles/corpus/blob_io.py:140-166 | every step keeps: while the planted file is at the name nobody has removed it or ended, and an empty name is owed a file by some writer |
| `BlobProtocol.StepKeepsClean` | particles/corpus/blob_io.py:112-166 | without a planted file no step removes the name or links it to anything but the blob |
| `BlobRuns.NameIsNeverPartial` | particles/corpus/blob_io.py:112-166 | in every reachable state the name is absent, the initial file unchanged, or the whole blob; a read that returns bytes returned the blob's; no writer is refused |
| `BlobRuns.ReturnsOnlyWithTheBlob` | particles/corpus/blob_io.py:112-166 | in every run a writer returns only if its call left the name holding the blob or it had just read the blob whole; and one that read it returns and leaves the name alone |
| `BlobRuns.QuiescentNameHoldsBlob` | particles/corpus/blob_io.py:87-166 | from any initial regular file and in any interleaving, once every writer has ended, by returning or raising, the name holds exactly the blob's bytes |
| `BlobRuns.BlobOncePresentStays` | particles/corpus/blob_io.py:112-166 | with no planted file, every writer that ends returns and left the blob at the name, a blob once there stays, and every read answers the blob or not-found |
| `BlobRuns.ReadAfterReturnFinds` | particles/corpus/blob_io.py:204-251 | with no planted file, a read begun after some writer returned answers with exactly the blob |
| `BlobRuns.LaterReadFinds` | particles/corpus/blob_io.py:204-251 | with no planted file, a read begun once the name holds the blob can only answer with it |
| `BlobRuns.RemovesAtMostOnce` | particles/corpus/blob_io.py:140-166 | no writer unlinks the blob's name twice in any run |
| `BlobRuns.WriterEnds` | particles/corpus/blob_io.py:87-166 | whatever the others do, a writer makes at most a number of calls fixed by the blob's length |
| `BlobRuns.UnfinishedWriterCanMove` | particles/corpus/blob_io.py:87-166 | in every reachable state a writer that has not ended has an enabled call, which brings it nearer its end |
| `BlobRuns.ReturnedBlobCanVanish` | particles/corpus/blob_io.py:140-166 | from a planted file, a run of two writers in which one has returned and the name is absent |
| `BlobRuns.ReturnedStaysReadableExactly` | particles/corpus/blob_io.py:90-166 | "once a writer has returned the name holds the blob" is true of every run if and only if no foreign file was planted |
| `BlobFiles.Shard.HoldsBlob` | particles/corpus/blob_io.py:174-201 | the block-by-block digest loop decides exactly whether the whole file hashes to the name |
| `BlobFiles.Shard.Install` | particles/corpus/blob_io.py:140-166 | run alone, two attempts always leave the name with the blob's digest, keep a blob that was there, and change no other file |
| `BlobFiles.Shard.WriteBlob` | particles/corpus/blob_io.py:87-129 | run alone, from any file at the name it returns with the name holding the content, every other name unchanged and no temporary file left |
| `BlobFiles.Shard.ReadBlob` | particles/corpus/blob_io.py:204-251 | returns the file's bytes exactly when they hash to the name, and otherwise not-found or the refusal |
| `KeyFormat.ParseTokenExact` | particles/api/_keys.py:158-163 | a token parses to a role, id and secret if and only if it is their formatted key with at most one newline after it |
| `KeyFormat.NormalisedRootExact` | particles/api/_keys.py:798-816 | normalising answers a path if and only if that path is in recorded form and the input is it, or it with one trailing slash |
| `KeyFormat.NormalisedRootIdempotent` | particles/api/_keys.py:798-816 | normalising a normalised root gives it back |
| `KeyFormat.NormalExact` | particles/api/_keys.py:798-816 | recorded form, character by character: absolute, no control character, no empty segment, no single or double dot between slashes or at the end |
| `KeyFormat.ParseOfItem` | particles/api/_keys.py:387-435 | reading back one written record gives the record, optional roots included |
| `KeyFormat.ParseInvertsSerialise` | particles/api/_keys.py:387-435 | the parser inverts the serialiser on every well-formed key map, in whatever order equal times were listed |
| `KeyFormat.ParsedIsWellFormed` | particles/api/_keys.py:387-435 | whatever usable document was read, hand-written ones included, its records are ones the serialiser can carry |
| `KeyFormat.UsableFileExactly` | particles/api/_keys.py:387-435 | which documents are usable, and that of two records with one id the later counts |
| `KeyFormat.UsableRecordExactly` | particles/api/_keys.py:394-431 | which records are usable, member by member |
| `KeyFormat.Serialise` | particles/api/_keys.py:860-873 | the document lists every record once, oldest first |
| `KeyRules.MintRoots` | particles/api/_keys.py:828-850 | the normalise-and-skip loop answers as the reference: the first refusal, or each root's normal form once in order |
| `KeyRules.OnceKeepsMembers` | particles/api/_keys.py:841-850 | de-duplication keeps exactly the members and repeats none |
| `KeyRules.RecordedRootsAreNormal` | particles/api/_keys.py:828-850 | recorded roots are exactly the normal forms of those asked for, none twice, and pass the lookup rule |
| `KeyRules.RecordedRootsExact` | particles/api/_keys.py:636-651 | the lookup rule accepts recorded roots if and only if each is in normal form |
| `KeyRules.RecordedRootsMintUnchanged` | particles/api/_keys.py:828-850 | a mint asked for recorded roots records them unchanged if and only if lookup accepts them and none repeats |
| `KeyRules.LookupRulesAreMintRules` | particles/api/_keys.py:611-666 | for every record, both lookup checks pass if and only if its principal is trimmed, the mint rules accept it (but for how a project's name reads) and its roots pass |
| `KeyRules.UsableExactly` | particles/api/_keys.py:611-666 | which records authenticate, rule by rule |
| `KeyRules.AcceptedExactly` | particles/api/_keys.py:744-850 | which requests a mint accepts, rule by rule |
| `KeyRules.MintedRecordsTheRequest` | particles/api/_keys.py:972-1000 | a mint records what it was asked for: stripped principal, role, label, canonical project, digest of the secret, time, and each list's own roots in normal form |
| `KeyRules.MintedIsUsable` | particles/api/_keys.py:956-1001 | every record a mint writes passes both lookup-time checks under the same settings, and its project survives the file |
| `KeyRules.ReservedNeedsAcknowledgement` | particles/api/_keys.py:744-786 | a mint under a reserved name goes through only with the acknowledgement, and its record says so exactly then |
| `KeyRules.MintedAuthenticatesExactly` | particles/api/_keys.py:574-608 | in any key map holding a minted record, its token authenticates if and only if the record is live, and no other text does |
| `KeyHistory.HistoryExtends` | particles/api/_keys.py:956-1018 | no run of mints and revocations loses a record, alters it but for its first revocation, or clears or moves a revocation |
| `KeyHistory.IdsAreNeverReused` | particles/api/_keys.py:983-985 | two mints of one history never add the same id, revoked ones included |
| `KeyHistory.StampedOnce` | particles/api/_keys.py:1004-1018 | no key is stamped twice |
| `KeyFile.StepKeepsInv` | particles/api/_keys.py:876-953 | every step of every process and reader keeps the mutual exclusion, the file-history agreement and every result's truth, a missing key's included until the command leaves |
| `KeyFile.StepsUseTheirDraws` | particles/api/_keys.py:983-1016 | a running mint's record is its request's under the id, secret and time it drew, and a revocation stamps the time it read and nothing else |
| `KeyRuns.FileIsLinearizable` | particles/api/_keys.py:876-1018 | in every reachable state the file reads as a sequential history with exactly one change for each process past its rename, the one its result reports; no command finds the file unusable |
| `KeyRuns.EveryResultIsSequential` | particles/api/_keys.py:956-1018 | every command's result, also one that changed nothing, is the sequential answer at some version of the history between its start and its end |
| `KeyRuns.RevokeAfterMintFindsTheKey` | particles/api/_keys.py:1004-1018 | a revocation begun once a key's mint had returned never answers that there is no such key |
| `KeyRuns.HistoryRespectsRealTime` | particles/api/_keys.py:956-1018 | a change made by some moment precedes in the history every change not yet made then |
| `KeyRuns.LaterFilesExtendEarlier` | particles/api/_keys.py:956-1018 | any later content of the file holds every earlier record, and a revoked one exactly as it was |
| `KeyRuns.CompletedMintIsNeverLost` | particles/api/_keys.py:956-1001 | once a mint has written, every later content of the file holds its record, everything its request asked for in it, changed at most by revocation |
| `KeyRuns.ReadersSeeCommittedVersions` | particles/api/_keys.py:449-532 | every answer, cached or not, is a committed version; a reader's answers never go back; a read begun after a moment is no older than it |
| `KeyRuns.MintedKeyAuthenticates` | particles/api/_keys.py:574-608 | in any interleaving, every read begun after a mint returned authenticates its token exactly while the version read holds the key live, and takes no other text for it |
| `KeyRuns.RevokedKeyNeverAuthenticates` | particles/api/_keys.py:1004-1018 | in any interleaving, no read begun after a revocation returned accepts any token as that key |
| `KeyRuns.UnusableFileIsLeftAlone` | particles/api/_keys.py:433-435 | an unparseable file is never written over by any run, and never read as a file with no keys |
| `KeyStore.Store.Load` | particles/api/_keys.py:449-532 | with or without the cache the answer is what the file stands for now, and a file that held live keys and is gone is unusable |
| `KeyStore.Store.Write` | particles/api/_keys.py:876-909 | the file then reads back as exactly the records written, and the cache is dropped |
| `KeyStore.Store.Mint` | particles/api/_keys.py:956-1001 | either nothing is written, for the reason returned, or exactly the new record is added, with everything the request asked for, under an id not in the file |
| `KeyStore.Store.Revoke` | particles/api/_keys.py:1004-1018 | a missing key is refused and a revoked one returned as it is, with the file unchanged; a live one gets the time as its stamp and nothing else changes |
| `KeyStore.Store.Authenticate` | particles/api/_keys.py:574-608 | the lookup through the cache equals the lookup in the file as it is now |
| `DepositRuns.ByUriExact` | particles/corpus/store.py:243-248 | the URI query answers the one holder, or nobody, and raises only for the empty URI when URIs are unique |
| `DepositRuns.DepositEvolves` | particles/corpus/deposit.py:2300-2525 | any `write_entry_and_snapshot` keeps non-empty URIs unique, loses or alters no snapshot, and keeps every entry's identity |
| `DepositRuns.TextEvolves` | particles/corpus/deposit.py:1895-1976 | so does any `deposit_text_versioned`, with its reconciles |
| `DepositRuns.RunEvolves` | particles/corpus/deposit.py:2005-2156 | over every run: URIs unique, no entry or snapshot lost or altered, depositors fixed, tags only grow, and a URI is given up only by a capture's entry, with an event naming it |
| `DepositRuns.UrlIsHeldForEver` | particles/corpus/deposit.py:2015-2050 | a URL once held by a non-capture entry is found at that entry, and no other, after every run |
| `DepositRuns.ConfinedDeposit` | particles/corpus/deposit.py:2366-2418 | a confined deposit leaves every entry outside its owner's names, and that entry's snapshots, exactly as they were; refused, it leaves everything so |
| `DepositRuns.ConfinedText` | particles/corpus/deposit.py:1944-1959 | the same for text deposits, the refusal preceding release, reconciles and the unchanged return |
| `DepositRuns.ConfinedRunLeavesOthers` | particles/corpus/deposit.py:2268-2296 | over every run confined to a depositor, others' entries keep URI, type, tags, policy and snapshots |
| `DepositRuns.RefusedExactly` | particles/corpus/deposit.py:2053-2067 | a confined deposit is refused if and only if an entry outside the owner's names holds its URI |
| `DepositRuns.OwnersExactly` | particles/corpus/deposit.py:2295-2296 | an owner's names are its own, but that the two harvesters are one owner |
| `DepositRules.DepositFrame` | particles/corpus/deposit.py:2366-2525 | whatever a deposit does, each entry there before is the one returned, is exactly as it was with its snapshots, or is a capture's that gave up its URI and nothing else |
| `DepositRules.JoinsExactly` | particles/corpus/deposit.py:2366-2423 | an entry is joined if and only if it holds the URI and is no other depositor's capture, or nobody joinable does, the hash query yields it, and the scope, type, `file://`, trust and capture rules let it |
| `DepositRules.LatestHoldsTheBytes` | particles/corpus/deposit.py:2424-2458 | after any deposit the returned entry's latest record carries the deposited bytes; a written record is dated as asked and never after the call |
| `DepositRules.KeysReachOnlyAttributed` | particles/corpus/deposit.py:2114-2156 | a global entry's tags are left alone and an attributed one ends with every project key of the request |
| `DepositRules.TypeAndPolicy` | particles/corpus/deposit.py:2463-2489 | no deposit changes an existing policy; an own-entries deposit changes no type, any other leaves the returned entry with the type asked for |
| `DepositRules.UnchangedExactly` | particles/corpus/deposit.py:2190-2231 | a deposit onto an entry is unchanged if and only if the entry has the type, its latest record carries the bytes and is no absence, and an explicit date is the one of the record its REVISIT chain leads to; and that record is the one returned |
| `DepositRules.FirstRecordIsWritten` | particles/corpus/deposit.py:2209-2211 | an entry with no record is never unchanged |
| `DepositRules.WrittenAsAsked` | particles/corpus/deposit.py:2444-2512 | the record written is the request's bytes and type at the moment of the call, dated as asked but never after it; a new entry carries the request's URI, type, mutability, policy, depositor and tags |
| `DepositRules.TagsAndEventsExactly` | particles/corpus/deposit.py:2015-2156 | exactly the keys an attributed entry lacks become its tags, and the events name those keys and every URI released, and nothing else |
| `DepositRules.OwnMatchGivesNoKey` | particles/corpus/store.py:484-519 | a match by bytes among the depositor's own entries gives the entry no tag |
| `DepositRules.AbsenceIsNoContent` | particles/corpus/deposit.py:975-996 | after an absence no hash query matches by it, and its entry is unchanged for no deposit |
| `DepositRules.TextEnrols` | particles/corpus/deposit.py:1944-1959 | a text deposit onto its URI's entry sets the policy it asks for, only then, and enrolling for refresh adds its masking tags |
| `DepositRules.TextUnchangedExactly` | particles/corpus/deposit.py:1944-1976 | a text deposit onto its URI's entry is unchanged if and only if the latest record carries the bytes, and returns that record; otherwise its record is the text's, dated as asked but never after the call |
| `DepositRules.TextWrittenAsAsked` | particles/corpus/deposit.py:1960-1976 | elsewhere the record written, and the entry made, are those the text asked for |
| `DepositRules.TextTagsExactly` | particles/corpus/deposit.py:1950-1954 | exactly the keys the entry is given and, on enrolment, the request's masking tags are added |
| `DepositRules.CaptureTouchesAnotherExactly` | particles/corpus/deposit.py:1252-1391 | another depositor's entry is the one a capture returns if and only if the capture falls back to its file and that entry holds the file's URI and is no capture's, or nobody joinable holds it and the hash query and rules yield the entry; it gives up its URI if and only if the capture falls back and it is a capture's at the file's URI; otherwise it and its snapshots are untouched |
| `DepositRules.CaptureJoinsAnotherByUri` | particles/corpus/deposit.py:1294-1302 | an instance: a scan of a folder whose file the operator had deposited appends to the operator's entry and retypes it |
| `DepositRules.CaptureJoinsAnotherByHash` | particles/corpus/deposit.py:1294-1302 | an instance: a capture whose bytes are a page the operator deposited does the same |
| `DepositRepeats.HolderOfChain` | particles/corpus/deposit.py:2216-2228 | the REVISIT walk answers the record a chain stops at, the latest one if a referent is missing, and the first record met again on a cycle |
| `DepositRepeats.ChainEnds` | particles/corpus/deposit.py:2216-2228 | every stored record starts a chain with one of those three endings, so the walk is settled for every graph |
| `DepositRepeats.HolderIsResponse` | particles/corpus/deposit.py:2216-2228 | on a chain that leads to a RESPONSE the walk returns that record |
| `DepositRepeats.RepeatJoins` | particles/corpus/deposit.py:2370-2381 | a repeated deposit whose entry holds its URI finds that entry again, unrefused and unreleased |
| `DepositRepeats.RepeatWritesNothingExactly` | particles/corpus/deposit.py:2424-2489 | for an entry that holds its URI, the repeat returns the same ids and leaves the corpus unchanged if and only if no explicit date lay in the future and no confined deposit kept another type |
| `DepositAgain.RepeatIsNoOpExactly` | particles/corpus/deposit.py:2366-2489 | on either tier, if and only if besides the second look-up leads to the same entry |
| `DepositAgain.RejoinsByHashExactly` | particles/corpus/deposit.py:2384-2423 | for an entry joined by its bytes or made under no URI it does so if and only if the query yields it again, the deposit is not identified by its URI alone, and a keyed one does not find the entry global |
| `DepositAgain.HitOfAnotherTypeMakesAnEntryEachTime` | particles/corpus/deposit.py:2387-2397 | an instance: while the query yields the depositor's entry of another type, each repeat under no URI makes a new entry |
| `DepositRepeats.FutureDateWritesAgain` | particles/corpus/deposit.py:2241-2254 | an instance: a note dated in the future is written a second time |
| `DepositRepeats.KeptTypeWritesAgain` | particles/corpus/deposit.py:2472-2478 | an instance: a confined deposit under another type appends again |
| `DepositRepeats.TextRepeatWritesNothing` | particles/corpus/deposit.py:1944-1976 | repeated text under its URI returns the same ids as unchanged and leaves every table as it was |
| `DepositTables.Tables.GetEntryByUri` | particles/corpus/store.py:243-248 | the scan answers nobody, the one holder, or several |
| `DepositTables.Tables.FindHolder` | particles/corpus/deposit.py:2216-2228 | the loop with its `seen` set ends for every graph and computes the walk |
| `DepositTables.Tables.UnchangedSnapshot` | particles/corpus/deposit.py:2190-2231 | answers the record to reuse exactly as the reference does |
| `DepositTables.Tables.WriteEntryAndSnapshot` | particles/corpus/deposit.py:2300-2525 | the tables and the ids returned are those of the reference deposit, and nothing is lost |
| `DepositTables.Tables.DepositTextVersioned` | particles/corpus/deposit.py:1895-1976 | the tables and the ids returned are those of the reference text deposit, and nothing is lost |
| `WriterLock.StepKeepsInv` | particles/db.py:214-263 | every step of any task keeps both locks' ownership, the count and the place of every open transaction |
| `WriterLock.WriterLockIsExclusive` | particles/db.py:214-329 | across processes and tasks at most one is inside, no count passes one, an open write transaction's task holds the lock, and commits form one serial chain |
| `WriterLock.EveryExitReleases` | particles/db.py:233-263 | by whatever paths tasks left, once all are idle every lock is free, every count zero and no transaction open |
| `WriterLock.IdleTaskHoldsNothing` | particles/db.py:233-263 | at every moment an idle task owns no asyncio lock and has no open transaction, and a count or OS lock is there only for another task that is not idle |
| `WriterLock.SomeStepIsEnabled` | particles/db.py:214-263 | no interleaving deadlocks: while a task is not idle some task has a step other than giving up |
| `WriterCommits.MoveLeaves` | particles/db.py:318-329 | a commit leaves in the store exactly what its task's statements since its BEGIN make of it; no other step, a rollback included, changes the store |
| `WriterCommits.StoreIsSerialReplay` | particles/db.py:297-329 | in every interleaving, at every moment, the store is the committed transactions' statements replayed one transaction after the other; no committed write is lost and no other one is there |
| `WriterCommits.TraceMeans` | particles/db.py:332-350 | the statements a block makes, savepoints included, leave what the block means |
| `WriterCommits.CommittedBlockMeans` | particles/db.py:318-350 | so a task that ran a block between its BEGIN and its COMMIT leaves in the store what the block means there |
| `Transactions.SavepointsAreFunctional` | particles/db.py:332-350 | the savepoint stack computes the nested functional meaning of any body and commits nothing on the way |
| `Transactions.StatementsKeepProper` | particles/db.py:332-350 | every statement keeps the one thing the block asks of a session: a transaction its own savepoint opened still has that savepoint |
| `Transactions.WriteBlockIsAtomic` | particles/db.py:318-350 | for every session, one inside its own first-statement savepoint included: an exception leaves the durable rows as at entry; otherwise the whole effect is committed at once, under the lock taken once |
| `Transactions.SavepointFirstCommits` | particles/db.py:332-350 | without the explicit BEGIN a first-statement savepoint would survive a rollback; with it, it does not |
| `Transactions.UnitsLockAndCommitOnce` | particles/corpus/deposit.py:97-123 | each outermost write unit takes the lock once and commits once, however units nest, and no task waits on itself |
| `Transactions.Session.TryCapture` | particles/corpus/deposit.py:1231-1241 | one capture leaves its own rows, or the rows as they were if it raises, and commits nothing, whether or not a transaction was open |
| `Transactions.Session.ScanCaptures` | particles/corpus/deposit.py:1215-1249 | the scan leaves exactly the rows of depositing only the captures that succeeded, in order |
| `Transactions.EachSucceedsOrFails` | particles/corpus/deposit.py:1215-1249 | every capture is counted once, as deposited or as skipped |
| `RateLimit.Limiter.MakeRoom` | particles/api/_rate_limit.py:108-121 | idle buckets go first, then the least recently seen, until one fits |
| `RateLimit.Limiter.Allow` | particles/api/_rate_limit.py:129-146 | the new table and the answer are those of the refill-and-spend reference, after room was made |
| `RateLimit.IdleIsFull` | particles/api/_rate_limit.py:108-121 | a bucket idle for a minute is full, so dropping it changes no level |
| `RateLimit.SpendsArePaidFor` | particles/api/_rate_limit.py:129-146 | spends of a key are covered by its starting level, the refill and its early evictions |
| `RateLimit.RateBound` | particles/api/_rate_limit.py:129-146 | over T seconds a bucket admits at most r(1+k) + rT/60 spends, k its early evictions |
| `RateLimit.PacedClientIsNeverRefused` | particles/api/_rate_limit.py:129-146 | a client that waits out one token's refill between its calls is admitted every time, whatever others do and whatever is evicted |
| `RateLimit.BurstIsAdmittedExactly` | particles/api/_rate_limit.py:136-146 | of n calls at one moment, of a client with a bucket or a new one that may have to make room, exactly as many are admitted as it has whole tokens |
| `RateLimit.RefusalCostsNothing` | particles/api/_rate_limit.py:141-143 | after a refused call the key's level is at every later moment what it would have been without the call |
| `RateLimit.RunIsAccounted` | particles/api/_rate_limit.py:129-146 | over every run that never drops the key early, its level is the least of a full bucket, what is left since the start, and what is left in each window that opens with a spend |
| `RateLimit.RefusedExactly` | particles/api/_rate_limit.py:129-146 | so a call is refused if and only if the spends of some window, from the start or from one of them, leave less than one token of what was there and was refilled |
| `RateLimit.TableIsBounded` | particles/api/_rate_limit.py:108-146 | in no run does the table hold more than 10,000 keys |
| `RateLimit.BoundedRefinesUnbounded` | particles/api/_rate_limit.py:108-146 | at any sequence of rates, every answer equals the unbounded table's as long as the least-recently-seen branch does not fire |
| `RateLimit.UndroppedKeyIsUnaffected` | particles/api/_rate_limit.py:108-146 | whatever is dropped of others, a key whose own bucket is never dropped early gets exactly the unbounded table's answers |
| `RateLimit.EarlyDropDecidesExactly` | particles/api/_rate_limit.py:108-146 | after an early drop and any turns of other keys, the key's next call is admitted, and so differs from the unbounded table's answer if and only if the key had less than one token then |
| `RateLimit.OnlyTheOldestGoes` | particles/api/_rate_limit.py:116-121 | in a full table with one strictly oldest client, a newcomer drops that one and can drop no other |
| `RateLimit.EarlyDropExceedsTheRate` | particles/api/_rate_limit.py:108-146 | a run from the empty table at rate one, with no tie deciding it: a client, 9,999 others a second later, one more, and the first again, which spends twice in a second, more than r + rT/60 |
| `RateLimit.RequestMeter.Enforce` | particles/api/_rate_limit.py:169-192 | with a positive rate a request is admitted exactly when its bucket gives a token, and its meter then holds that token prepaid; without one everything is admitted and nothing changes |
| `RateLimit.RequestMeter.Charge` | particles/api/_rate_limit.py:221-234 | a call is sent on the prepaid token, which is used up without touching the bucket, or exactly when the bucket gives a new one; a refusal is counted |
| `RateLimit.CallsSentArePaidFor` | particles/api/_rate_limit.py:169-234 | across all interleaved requests, each resolving its bucket anew at each call, model calls sent on a bucket's tokens never exceed the tokens spent from it |
| `RateLimit.TokensAreAccountedFor` | particles/api/_rate_limit.py:169-234 | no token is lost or found: those spent from a bucket are the calls sent on them, those still prepaid, and those that admitted a request without paying for a call |
| `RateLimit.RefusalsAreCounted` | particles/api/_rate_limit.py:221-234 | a metered call that is not sent is counted as refused, and no other |
| `RateLimit.ModelCallsAreBounded` | particles/api/_rate_limit.py:169-234 | so at most r(1+k) + rT/60 model calls are sent on a bucket's tokens |
| `GreedyMatch.BuildCandidates` | particles/benchmark/equivalence.py:200-210 | exactly the pairs above the judge's floor, in the order of the reversed sort |
| `GreedyMatch.Assign` | particles/benchmark/equivalence.py:212-238 | the pass chooses a stable one-to-one set and files each pair by confidence |
| `GreedyMatch.MatchEmittedToExpected` | particles/benchmark/equivalence.py:200-246 | the result is a stable assignment; every emitted particle lands in exactly one of matched, under-confidence and spurious, and exactly the unmatched required claims are missed |
| `GreedyMatch.GreedyIsHalfOptimal` | particles/benchmark/equivalence.py:200-246 | for every similarity function, the number of pairs and their similarity above zero are each at least half those of any one-to-one assignment of acceptable pairs, and so is the total similarity unless a negative pair was chosen |
| `GreedyMatch.HalfOfTotalExactly` | particles/benchmark/equivalence.py:204-246 | the total is at least half of any assignment's, for every similarity function and judge verdict, if and only if the judge's floor is not below zero |
| `GreedyMatch.NegativeFloorBreaksTotal` | particles/benchmark/equivalence.py:204-210 | for every floor below zero, similarities at which a chosen negative pair makes the total worse than choosing nothing |
| `GreedyMatch.StableIsUnique` | particles/benchmark/equivalence.py:200-246 | there is one stable assignment only, so the answer does not depend on how the pass is written |
| `GreedyMatch.ChargedOnce` | particles/benchmark/equivalence.py:216-238 | pairs of another assignment charged to chosen pairs at one side weigh at most the chosen total |
| `ChangeJournal.JournalledStore.AppendChange` | alembic/versions/054_particle_change_journal.py:75-78 | an insertion takes the next number and the prune trigger leaves the retained window |
| `ChangeJournal.JournalledStore.Insert` | alembic/versions/054_particle_change_journal.py:59-62 | an insert journals the new id |
| `ChangeJournal.JournalledStore.Update` | alembic/versions/054_particle_change_journal.py:63-69 | an update journals the new id, and the old one before it when the id changed |
| `ChangeJournal.JournalledStore.Delete` | alembic/versions/054_particle_change_journal.py:70-73 | a delete journals the old id |
| `ChangeJournal.ApplyChanges` | particles/store/candidate_cache.py:288-305 | the refresh loop gives the changed ids their current rows and keeps the others |
| `ChangeJournal.RefreshEqualsRebuild` | particles/store/candidate_cache.py:227-305 | a refresh that reads one state, as inside a transaction, holds exactly the rows worth caching of that state, wherever the journal can be followed |
| `ChangeJournal.JournalIsAWindow` | alembic/versions/054_particle_change_journal.py:58-79 | over every run, rollbacks included, retained numbers are a contiguous window ending at the newest |
| `ChangeJournal.RefreshIsSound` | particles/store/change_journal.py:142-176 | over every such run, a reader of one state whose remembered entry is still there with its token rebuilds that state's table exactly from the ids journalled after it |
| `CacheRefresh.CommittedIsForGood` | alembic/versions/054_particle_change_journal.py:58-79 | whatever was committed at some moment, every later visible state holds its retained entries alike, and while it retains what came after, those entries name every row that differs |
| `CacheRefresh.AgreementIsKept` | particles/store/candidate_cache.py:227-248 | over every run a cache goes on agreeing, at every id not journalled after its head, with each state in which that head is still trusted |
| `CacheRefresh.CurrentCacheIsExact` | particles/store/candidate_cache.py:239-240 | a cache whose head is the newest entry holds exactly the rows worth caching, as they are |
| `CacheRefresh.BuildAgrees` | particles/store/candidate_cache.py:270-285 | a build that reads the head first and the rows later, with any writes between, gives such a cache |
| `CacheRefresh.RefreshKeepsAgreement` | particles/store/candidate_cache.py:227-305 | so does a refresh whose head, token, ids and rows are each read at their own moment with writes between, if no entry after the old head was pruned by the time the ids are read |
| `CacheRefresh.RefreshKeepsAgreementExactly` | particles/store/candidate_cache.py:227-305 | for an old head s, a journal ending at m at the token check and at n at the id read, every refresh keeps the agreement if and only if n <= s + 100,000 (nothing after s pruned) or n >= m + 100,000 (the new head pruned too, so the cache is never used again) |
| `CacheRefresh.PrunedBetweenStatementsIsMissed` | particles/store/candidate_cache.py:241-246 | for all other numbers, a run in which the writes between the token check and the id read prune an entry, and the refreshed cache lacks a row for good |
| `LikePattern.ChainedIsOnePass` | particles/sql_safety.py:29-41 | the three chained replacements equal a one-pass escaper |
| `LikePattern.EscapedMatchesExactly` | particles/sql_safety.py:29-41 | under LIKE with that escape, the escaped value matches exactly the text equal to it, for any character equality |
| `LikePattern.EscapedPrefixMatchesExactly` | particles/api/app.py:2964-2966 | followed by a percent sign it matches exactly the subjects it prefixes |
| `LikePattern.EscapeInjective` | particles/sql_safety.py:29-41 | two values with one escaped form are one value |
| `ForwardedClient.HopAddressExact` | particles/api/auth.py:164-182 | a hop is read as an address if and only if it is one of its four spellings |
| `ForwardedClient.CombinedLinesReadAsLines` | particles/api/auth.py:204-214 | combining field lines as section 5.3 of RFC 9110 describes and splitting gives each line's hops in order |
| `ForwardedClient.WalkIsRightmostDeciding` | particles/api/auth.py:185-223 | the answer is the rightmost untrusted or unreadable hop's, and the peer's when all are trusted |
| `ForwardedClient.WalkIgnoresPrefix` | particles/api/auth.py:185-223 | whatever is put before a deciding hop, the answer is the same |
| `ForwardedClient.ClientCannotChooseItself` | particles/api/auth.py:185-223 | behind a trusted peer, nothing a client sends before the proxy's own hops, in lines or on the same line, changes the answer |
| `ForwardedClient.RealClientHostExact` | particles/api/auth.py:185-223 | no peer gives nobody; a peer that is not a trusted proxy is the client whatever the request says; behind one, the nearest hop that is not trusted is, or the fixed sentinel if it cannot be read, or the peer if every hop is trusted |
| `ForwardedClient.HopsOfPiece` | particles/api/auth.py:207-208 | a comma-free piece of a field is one hop, stripped of whitespace and of nothing else, and none when blank |
| `DateSegments.SegmentByDateLines` | particles/corpus/deposit.py:423-442 | the accumulating loop computes the reference segmentation |
| `DateSegments.SegmentationLosesNothing` | particles/corpus/deposit.py:407-442 | the text is a whitespace-only preamble followed by the sections, whose dates are the date lines' in order |
| `DateSegments.SectionsAreFixedPoints` | particles/corpus/deposit.py:407-442 | only the first section can be dateless, and re-segmenting any section gives just that section |
| `DateSegments.DateOfTerminatedLine` | particles/corpus/deposit.py:425-426 | a line followed by any run of carriage returns and newlines has the date it states bare |
| `DateSegments.SplitLinesAreLines` | particles/corpus/deposit.py:425 | the text is cut exactly at its line breaks, a carriage return with its newline being one |

## Left out

- Bytes of JSON, base64 and dates: a key file is a JSON value, a secret a text over its alphabet, a date line whatever a parameter says it is.
- Ownership, mode, ACL, group and symlink checks on the key file and the blob store, and directories: every file is a regular file in a safe directory.
- KeyFile.StepKeepsInv: takes a file's stat stamp to change with each rename, and the temporary file of a write to be seen by nobody.
- KeyStore.Store.Mint: draws ids from a given source that yields an unused one in time; the file lock is in `KeyFile`, not in the class.
- Crashes, task cancellation inside the threaded file-lock acquire, a failing commit, and settings reloaded during a run.
- The order of an entry's tags, its etag, author and archive path, extraction status, document relations, follow edges and mentions; the key-assignment events of one reconcile are one event.
- Parsing of a capture's frontmatter, the file walks and fetches: a capture is the request it makes under a URL, if it names a web URL, and the request it makes as a file.
- DepositRepeats.RepeatWritesNothingExactly: is about record types other than ABSENT, which no deposit path passes, and a second call at a later clock reading.
- DepositAgain.RepeatIsNoOpExactly: the same.
- CacheRefresh.RefreshKeepsAgreement: is about a session that reads committed tables; one that reads inside its own transaction reads one state, which `ChangeJournal.RefreshIsSound` covers.
- RateLimit.Limiter.MakeRoom: leaves open which of equally old buckets goes, where the source drops the one inserted first; no result rests on the choice.
- Building the similarity matrix and taking the better of two renderings in the matcher, and the embedding and LLM calls: similarity and the judge's verdict are parameters.
- Multi-row statements and REPLACE on the particles table, and particles with an empty id, which the journal's installation entry uses.
- HTTP routes, gates and roles, startup checks, the blob checker, the other migrations, benchmark metrics and reports: wiring, or easy case analysis beside these cores.
