# Alcedo Studio: verified models of the application services

Alcedo Studio is a photo library and editor. This project models the parts of its
application layer that hold state, run concurrently or do exact arithmetic, and proves what
they promise. `dafny verify dfyconfig.toml` checks everything.

| files | what they model |
|---|---|
| `AnalysisJob.dfy`, `AnalysisSystem.dfy`, `AnalysisVerdicts.dfy`, `PrefillQueue.dfy` | image-analysis jobs: a producer and a consumer thread per job, a bounded queue, one gate shared by all jobs, and `Cancel` between any two steps |
| `Base256.dfy`, `Sha256.dfy`, `Sha256Constants.dfy`, `CredentialCrypto.dfy`, `CredentialStore.dfy`, `KeyDerivation.dfy` | the hand-written SHA-256, the xor stream cipher and its file frame, the two credential stores, HMAC and PBKDF2 |
| `LruCache.dfy`, `EvictionCycle.dfy`, `HistoryService.dfy`, `HistoryRuns.dfy`, `PipelineService.dfy`, `PipelineRuns.dfy` | the pinned write-back caches of edit histories and pipelines, and whole runs of both |
| `SqlText.dfy`, `SearchSql.dfy` | the fuzzy search compiled to SQL |
| `Json.dfy`, `AdjustmentTransfer.dfy`, `VersionNames.dfy` | adjustment transfer: JSON merge, direct and recorded application, undo, fresh version names |
| `PackedProject.dfy` | the packed project file |
| `Tally.dfy`, `ThreadPool.dfy`, `ExportJob.dfy`, `ImportJob.dfy` | the thread pool, and the completion counters of exports and imports that run over it |
| `ToneCurves.dfy` | the piecewise-linear tone curves of the tuning scripts |
| `Wrappers.dfy` | `Option`, `Result` and a mapping |

Conventions. Threads are step functions over a state: one step is one atomic read or write,
one critical section or one answer of the environment, under sequential consistency, and a
theorem about a job quantifies over every sequence of steps. Objects that the program updates
in place are classes; each method is tied to a function of the old state. What the program
asks of randomness, clocks, the file system, providers and the database comes in as a
parameter. In the two caches the files are in order (`FilesOk`) when every live object has the
content committed last, the storage has it too unless the entry is dirty, and a dirty entry
is held or still listed.

Where the code does not do what its documentation says, the code is modelled, and a lemma says
what holds instead:

- `AnalysisSystem.CancelCanNameAnotherJob`: the comment in `ImageAnalysisJob::Cancel` says the
  gate's id is the job's own; it need not be, and `CancelNamesOwn` says exactly when it is.
- `AnalysisVerdicts.CancelledWithoutCancel`: the comment on the finalizer says that an item without a
  result was left behind by a cancel; it can also be left behind by a thumbnail request that its
  service reports as cancelled. `VerdictsAreEarned` says which of the two a cancelled result takes.
- `CredentialStore.StoresAgree`: the two stores answer alike except when an invalid slot is
  deleted, which the map accepts and the file store refuses.
- `AdjustmentTransfer.EnabledAgainstItsParameters`, `AdditionIsNotUndone`: a recorded
  transaction does not write null parameters and does not enable an operator against an
  `enabled` flag (or an empty look path) inside its parameters, while the direct way does; and
  an added operator is only disabled by undo. `TransfersAgree` and `UndoRestores` give the exact
  conditions for every package; the change flags agree always (`FlagsAgree`).
- `PipelineRuns.LostEdit`: an edit that was saved is missing from the storage after `Sync`. An
  evicted entry whose render lock is not had, other than the one the list pushed out first, stays
  in the map but leaves the list (so does a file that is inserted while all others are pinned),
  and the next load replaces an unlisted entry by a clean guard.
  `PipelineService.PipelineMgmtService.LoadPipeline` says exactly when a load loses something, and
  `PipelineRuns.RunThenSync` that nothing is lost with one user a file and free locks.
- `HistoryRuns.ReplacedGuard`: likewise a second load of a history that is not listed, while its
  owner has changed it, replaces the dirty guard, and `Sync` does not write the change.
  `HistoryService.EditHistoryMgmtService.LoadHistory` says exactly when a load replaces something,
  and `HistoryRuns.RunThenSync` that nothing is lost with one owner a file.
- `PackedProject.ReadAfterWrite`: the writer does not check the size limit that the reader
  enforces.

## Model

| member | source | states |
|---|---|---|
| AnalysisSystem.FinishedJobComplete | alcedo_studio/src/app/image_analysis_service.cpp:890-1402 | in every interleaving a finished job has exactly one result per item, in batches that permute consecutive slices (item order for describe and score), each counter equals the number of results of its status, and they sum to the total; it finished once |
| AnalysisVerdicts.VerdictsAreEarned | alcedo_studio/src/app/image_analysis_service.cpp:890-1402 | in every run a result is Analyzed exactly if its item was answered with a success and no cancel was stored at the check after the call; Failed exactly if the registration or the item's own call threw, or the item could not be prepared and was taken up, or its answer was no success and no cancel was stored at the check; Canceled only after a call of `Cancel` or a cancelled thumbnail request |
| AnalysisVerdicts.CancelsHappen | alcedo_studio/src/app/image_analysis_service.cpp:895-920 | what a run shows of cancels is there only if the run has a call of `Cancel`, or a cancelled thumbnail request, for that job |
| AnalysisVerdicts.CalmJob | alcedo_studio/src/app/image_analysis_service.cpp:890-1402 | a finished job without cancels whose thumbnails were all encoded counts every item as analyzed if every answer was a success, and as failed if none was |
| AnalysisVerdicts.CancelledWithoutCancel | alcedo_studio/src/app/image_analysis_service.cpp:916-1402 | a run without a call of `Cancel` that finishes with a cancelled result |
| AnalysisSystem.OneCallAtATime | alcedo_studio/src/app/image_analysis_service.cpp:1025-1071 | over any number of jobs at most one remote call is in flight; a raised in-flight flag means holding the slot, with the published id its own or empty; a begun call has flag, slot and own id |
| AnalysisSystem.LateCallsBounded | alcedo_studio/src/app/image_analysis_service.cpp:1215-1320 | after the cancel flag is stored at most one more call of that job begins and at most one more result is recorded as analyzed |
| AnalysisSystem.QuietForever | alcedo_studio/src/app/image_analysis_service.cpp:1225-1240 | once a `Cancel` has read the in-flight flag as clear, no continuation of the run begins or is in a call of that job |
| AnalysisSystem.CancelNamesOwn | alcedo_studio/src/app/image_analysis_service.cpp:598-604 | the id that `Cancel` reads is the job's own exactly while the job still publishes it |
| AnalysisSystem.CancelCanNameAnotherJob | alcedo_studio/src/app/image_analysis_service.cpp:591-604 | a reachable run in which `Cancel` of one job sends the id of another job |
| AnalysisSystem.SomeThreadMoves | alcedo_studio/src/app/image_analysis_service.cpp:177-262 | no deadlock: while a job is unfinished some thread can take a step |
| AnalysisSystem.RunsAreBounded | alcedo_studio/src/app/image_analysis_service.cpp:891-1402 | every run has at most as many thread steps as a measure of its start, however often `Cancel` comes in between |
| AnalysisSystem.MaximalRunFinishes | alcedo_studio/src/app/image_analysis_service.cpp:1379-1428 | a run in which no thread can move has finished every job and its producer |
| AnalysisSystem.ReachableInv | alcedo_studio/src/app/image_analysis_service.cpp:898-1402 | the gate and job invariants hold in every reachable state: one holder, id published by the holder, results a prefix up to the order inside a batch, queue the next contiguous slice |
| AnalysisSystem.GateKeeps | alcedo_studio/src/app/image_analysis_service.cpp:305-333 | acquiring, clearing the id and releasing keep the gate invariant for all jobs |
| AnalysisJob.ProducerKeeps | alcedo_studio/src/app/image_analysis_service.cpp:898-960 | every producer step keeps the job invariant |
| AnalysisJob.ConsumerKeeps | alcedo_studio/src/app/image_analysis_service.cpp:991-1402 | every consumer step keeps the job invariant |
| AnalysisVerdicts.ConsumeTraced | alcedo_studio/src/app/image_analysis_service.cpp:991-1402 | every consumer step keeps results, answers in hand and queue entries true to what the registration, the thumbnails, the calls and the cancels were |
| AnalysisJob.CancelKeeps | alcedo_studio/src/app/image_analysis_service.cpp:568-611 | every step inside `Cancel` keeps the job invariant |
| AnalysisJob.FinalizeData | alcedo_studio/src/app/image_analysis_service.cpp:1387-1402 | filling in the unprocessed items makes the results complete: one each, every one within its batch of its place |
| AnalysisJob.JobNotStuck | alcedo_studio/src/app/image_analysis_service.cpp:861-881 | with the capacity clamped to the batch size a full queue and a short batch never block each other |
| AnalysisJob.ConsumerProgress | alcedo_studio/src/app/image_analysis_service.cpp:992-1402 | every consumer step decreases the measure |
| PrefillQueues.PrefillQueue.Push | alcedo_studio/src/app/image_analysis_service.cpp:181-193 | appends, refuses after a cancel, or would wait, exactly as the pushing producer step does; never exceeds the capacity |
| PrefillQueues.PrefillQueue.Pop | alcedo_studio/src/app/image_analysis_service.cpp:195-211 | takes the first entry, ends, or would wait, exactly as the popping consumer step does |
| PrefillQueues.PrefillQueue.PopBatch | alcedo_studio/src/app/image_analysis_service.cpp:213-245 | takes the first entries in order, at most the given number, exactly as the popping consumer step does |
| Sha256Spec.ZeroBitsSmallest | alcedo_studio/src/app/ai_credential_store.cpp:815-822 | the number of zero bits is the smallest that solves the congruence of section 5.1.1 of FIPS 180-4 |
| Sha256Spec.WordRoundTrip | alcedo_studio/src/app/ai_credential_store.cpp:830-863 | a word written as four bytes reads back as the word |
| Sha256Code.PadZeros | alcedo_studio/src/app/ai_credential_store.cpp:819-820 | the padding loop appends exactly the zero bytes of section 5.1.1 |
| Sha256Code.BigEndianWraps | alcedo_studio/src/app/ai_credential_store.cpp:815-824 | the eight length bytes depend on the length modulo 2^64 only |
| Sha256Code.PadMessage | alcedo_studio/src/app/ai_credential_store.cpp:814-824 | the padded message is that of section 5.1.1, for messages of every length |
| Sha256Code.ExtendWords | alcedo_studio/src/app/ai_credential_store.cpp:837-841 | the array is the recursively defined message schedule of section 6.2.2 |
| Sha256Code.Compress | alcedo_studio/src/app/ai_credential_store.cpp:843-852 | the eight registers after the loop are the working variables after 64 rounds |
| Sha256Code.AddRegisters | alcedo_studio/src/app/ai_credential_store.cpp:853 | the hash value gets the registers added word by word, modulo 2^32 |
| Sha256Code.HashBlocks | alcedo_studio/src/app/ai_credential_store.cpp:826-854 | the outer loop computes the intermediate hash value after all blocks |
| Sha256Code.Sha256 | alcedo_studio/src/app/ai_credential_store.cpp:798-864 | for every byte string the in-place function returns the hash of section 6.2 of FIPS 180-4 |
| Sha256Constants.PrimesInOrder | alcedo_studio/src/app/ai_credential_store.cpp:800-809 | the table behind the constants has the first sixty-four primes: it begins with two, and each entry is the next prime after the one before it |
| Sha256Constants.RoundConstants | alcedo_studio/src/app/ai_credential_store.cpp:800-809 | each round constant is the first thirty-two bits of the fraction of the cube root of its prime, as section 4.2.2 of FIPS 180-4 says |
| Sha256Constants.InitialHash | alcedo_studio/src/app/ai_credential_store.cpp:827-828 | each word of the initial hash value is the first thirty-two bits of the fraction of the square root of its prime, as section 5.3.3 of FIPS 180-4 says |
| Sha256Constants.FractionUnique | alcedo_studio/src/app/ai_credential_store.cpp:800-809 | no other number of thirty-two bits is that fraction, so the law fixes the constants |
| CredentialCrypto.DeriveMasterKey | alcedo_studio/src/app/ai_credential_store.cpp:939-953 | the end of a chain of a thousand hashes, each of the key before it and its four-byte counter, from the hash of the machine id with its suffix |
| CredentialCrypto.XorCrypt | alcedo_studio/src/app/ai_credential_store.cpp:871-895 | byte i of the output is byte i of the input xored with byte i modulo 32 of the hash of key, iv and the counter i divided by 32 in eight bytes |
| CredentialCrypto.BlocksHashApart | alcedo_studio/src/app/ai_credential_store.cpp:878-884 | two blocks of one message never hash the same bytes, as eight bytes tell all counters below 2^64 apart |
| CredentialCrypto.CryptTwice | alcedo_studio/src/app/ai_credential_store.cpp:871-895 | the cipher is its own inverse at every length |
| CredentialCrypto.EncryptData | alcedo_studio/src/app/ai_credential_store.cpp:955-990 | the frame is magic, salt, iv, the first sixteen bytes of the hash of iv, salt and ciphertext, and the ciphertext, whose bytes are given one by one |
| CredentialCrypto.DecryptData | alcedo_studio/src/app/ai_credential_store.cpp:992-1039 | rejects short, foreign and altered files, else decrypts |
| CredentialCrypto.UnsealSeal | alcedo_studio/src/app/ai_credential_store.cpp:955-1039 | decrypting an encryption gives the plaintext for every plaintext, salt and iv |
| CredentialCrypto.AcceptsExactlySealed | alcedo_studio/src/app/ai_credential_store.cpp:992-1039 | a file decrypts to a plaintext if and only if it is an encryption of that plaintext under some salt and iv |
| CredentialStore.InMemoryStore.SaveCredential | alcedo_studio/src/app/ai_credential_store.cpp:81-90 | stores the secret under a valid slot, refuses an invalid one |
| CredentialStore.InMemoryStore.DeleteCredential | alcedo_studio/src/app/ai_credential_store.cpp:103-107 | erases the slot and always says yes |
| CredentialStore.EncryptedFileStore.SaveCredential | alcedo_studio/src/app/ai_credential_store.cpp:1046-1086 | the file of a valid slot becomes the sealed secret, no other file changes |
| CredentialStore.EncryptedFileStore.LoadCredential | alcedo_studio/src/app/ai_credential_store.cpp:1088-1119 | the secret of a sealed file; each of the four errors exactly under the guard of its branch |
| CredentialStore.EncryptedFileStore.DeleteCredential | alcedo_studio/src/app/ai_credential_store.cpp:1121-1139 | removes the file of a valid slot, idempotently |
| CredentialStore.CipherOpens | alcedo_studio/src/app/ai_credential_store.cpp:955-1039 | the store's cipher opens whatever it seals |
| CredentialStore.StepSimulates | alcedo_studio/src/app/ai_credential_store.cpp:1046-1146 | every operation keeps the directory a faithful encoding of the map |
| CredentialStore.AnswersDiffer | alcedo_studio/src/app/ai_credential_store.cpp:81-111 | one operation is answered alike by both stores exactly when it does not delete an invalid slot |
| CredentialStore.StoresAgree | alcedo_studio/src/app/ai_credential_store.cpp:955-1146 | every sequence of operations is answered alike by both stores exactly when it deletes no invalid slot |
| KeyDerivation.HmacSha256 | alcedo_studio/src/app/credential_portability.cpp:92-111 | HMAC of section 2 of RFC 2104 for every key, longer than a block or not |
| KeyDerivation.DeriveBlock | alcedo_studio/src/app/credential_portability.cpp:114-132 | with an HMAC-SHA-256 call for every iteration, the running value and the accumulator are U_c and U_1 xor ... xor U_c of section 5.2 of RFC 8018 |
| KeyDerivation.DeriveKeyFromPassword | alcedo_studio/src/app/credential_portability.cpp:81-137 | PBKDF2 of section 5.2 of RFC 8018 over the HMAC of RFC 2104, for every password, salt, length and iteration count of at least one |
| Lru.LruCache.AccessElement | alcedo_studio/src/include/utils/cache/lru_cache.hpp:39-46 | a found key becomes the most recent |
| Lru.WithoutCutsOut | alcedo_studio/src/include/utils/cache/lru_cache.hpp:39-46 | taking a key out of the list leaves the others in order |
| Lru.LruCache.RecordAccessWithEvict | alcedo_studio/src/include/utils/cache/lru_cache.hpp:65-83 | a new key at capacity returns and removes exactly the oldest key |
| Lru.LruCache.RecordAccess | alcedo_studio/src/include/utils/cache/lru_cache.hpp:48-63 | a known key becomes the most recent, a new one is added, at capacity in place of the oldest |
| Lru.LruCache.Evict | alcedo_studio/src/include/utils/cache/lru_cache.hpp:93-108 | removes exactly the oldest key |
| Lru.LruCache.Resize | alcedo_studio/src/include/utils/cache/lru_cache.hpp:110-129 | growing keeps exactly the most recent keys that fit, in order; shrinking drops nothing |
| EvictionCycle.RotatedStep | alcedo_studio/src/app/history_mgmt_service.cpp:42-48 | recording a pinned candidate again pushes out the next key of the cycle |
| EvictionCycle.OldestFreeIsChosen | alcedo_studio/src/app/history_mgmt_service.cpp:18-54 | when an unpinned key other than the inserted one exists, the chosen key is the oldest unpinned one: in the list, not pinned, not the inserted one, every older one pinned |
| HistoryService.EditHistoryMgmtService.CyclePinned | alcedo_studio/src/app/history_mgmt_service.cpp:24-48 | the attempts suffice to reach the oldest key that is not pinned, and the pinned ones before it become the most recent |
| HistoryService.EditHistoryMgmtService.HandleEviction | alcedo_studio/src/app/history_mgmt_service.cpp:18-54 | erases exactly that key, after writing its history if dirty; touches no other entry; the list afterwards, which grows if everything is pinned; every LRU key keeps a map entry |
| HistoryService.EditHistoryMgmtService.LoadHistory | alcedo_studio/src/app/history_mgmt_service.cpp:56-110 | a listed file gives out its guard again, any other gets a new clean one for the live, stored or empty history; list, capacity, map, live objects and storage afterwards, and every other guard that is not evicted is unchanged; with the files in order the content is the one committed last, and they stay in order exactly if no unwritten entry is replaced |
| HistoryService.EditHistoryMgmtService.CommitVersion | alcedo_studio/src/app/history_mgmt_service.cpp:112-151 | the guard becomes the pinned, dirty entry of its file with the changed content; list, map and storage afterwards, and every other guard that is not evicted is unchanged; from the owner it leaves the files in order, and no content is lost by the eviction it may cause |
| HistoryService.EditHistoryMgmtService.UpdateVersion | alcedo_studio/src/app/history_mgmt_service.cpp:153-183 | renaming, activating and updating change the content of the guard's file only, and from the owner they leave the files in order |
| HistoryService.EditHistoryMgmtService.SaveHistory | alcedo_studio/src/app/history_mgmt_service.cpp:185-216 | whichever guard is given back becomes the clean, unpinned entry, its content in the storage if it was dirty; list, capacity, map, live objects and storage afterwards, and every other guard that is not evicted is unchanged; from the owner, the storage has the committed content and the files stay in order |
| HistoryService.EditHistoryMgmtService.DeleteHistory | alcedo_studio/src/app/history_mgmt_service.cpp:218-227 | the file leaves list, map, live objects and storage, owned or not, and no other file changes |
| HistoryService.EditHistoryMgmtService.Sync | alcedo_studio/src/app/history_mgmt_service.cpp:245-255 | the storage gets exactly the contents of the dirty entries; with the files in order it then equals the last committed content of every file |
| HistoryRuns.RunThenSync | alcedo_studio/src/app/history_mgmt_service.cpp:18-255 | for every sequence of loads, commits, updates, saves and deletions with one owner a file at a time, whatever the edits do to the content, the storage after a final `Sync` is the last content of every history |
| HistoryRuns.ReplacedGuard | alcedo_studio/src/app/history_mgmt_service.cpp:18-110 | a run from the empty service in which sixteen histories are held, a seventeenth is loaded and so unlisted, changed and loaded again; its owner's dirty guard is no longer the entry and `Sync` leaves the change out of the storage |
| PipelineService.PipelineMgmtService.HandleEviction | alcedo_studio/src/app/pipeline_service.cpp:150-194 | erases the oldest unpinned entry exactly when its render lock is had in one of the remaining attempts, writing dirty content first; an entry that stays locked remains in the map with the same guard and leaves the list unless it was the one evicted; the list afterwards, key by key |
| PipelineService.PipelineMgmtService.CyclePinned | alcedo_studio/src/app/pipeline_service.cpp:150-188 | the attempts suffice to reach the oldest key without pins, found or not, and the pinned ones before it become the most recent |
| PipelineService.PipelineMgmtService.LoadPipeline | alcedo_studio/src/app/pipeline_service.cpp:196-278 | a listed file gives its guard one more pin, any other gets a new clean guard for the live, stored or empty pipeline, also over an unlisted entry; so the dirty flag of an entry is lost exactly if the entry is not listed; map, storage and list afterwards; the files stay in order exactly if no unwritten entry is replaced or given up; the final throw is unreachable |
| PipelineService.PipelineMgmtService.SavePipeline | alcedo_studio/src/app/pipeline_service.cpp:280-331 | the pin count stays loads minus saves for every entry exactly while no guard is saved more often than loaded; the last save of a dirty guard stores it, with map, storage and list afterwards; the files stay in order exactly if no unwritten entry is given up |
| PipelineService.PipelineMgmtService.Sync | alcedo_studio/src/app/pipeline_service.cpp:386-396 | the storage gets exactly the contents of the dirty entries, which become clean; with the files in order it then equals the last edit of every file |
| PipelineService.PipelineMgmtService.DeletePipeline | alcedo_studio/src/app/pipeline_service.cpp:333-342 | the file leaves list, map, live objects and storage, and no other file changes |
| PipelineRuns.RunThenSync | alcedo_studio/src/app/pipeline_service.cpp:150-396 | for every sequence of loads, edits, saves and deletions with one user a file at a time and the render locks free, the storage after a final `Sync` is the last edit of every file |
| PipelineRuns.LostEdit | alcedo_studio/src/app/pipeline_service.cpp:150-278 | a run from the empty service, with one user a file, in which an edited and saved pipeline is not in the storage after `Sync` |
| SqlText.SqlStringEscape | alcedo_studio/src/app/sleeve_filter_service.cpp:51-61 | every quote doubled |
| SqlText.SqlLikeEscape | alcedo_studio/src/app/sleeve_filter_service.cpp:36-49 | the one pass equals escaping the wildcards and then doubling the quotes |
| SqlText.LexLiteral | alcedo_studio/src/app/sleeve_filter_service.cpp:63-69 | a quoted string lexes back to the original with nothing left over, wherever it stands |
| SqlText.EscapedMatchesContaining | alcedo_studio/src/app/sleeve_filter_service.cpp:251-253 | the escaped text between two wildcards matches exactly the strings that contain the text |
| SqlText.ContainsAt | alcedo_studio/src/app/sleeve_filter_service.cpp:79-85 | containing a text means that its characters stand in a row somewhere |
| SearchSql.SameSeparators | alcedo_studio/src/app/sleeve_filter_service.cpp:91-139 | the list of the SQL chain and the cases of the stripping function name the same separators |
| SearchSql.StripSearchSeparators | alcedo_studio/src/app/sleeve_filter_service.cpp:87-132 | the text without separators in lower case |
| SearchSql.ChainValue | alcedo_studio/src/app/sleeve_filter_service.cpp:134-147 | the value of the first n REPLACE calls is the lower-case text without the first n separators |
| SearchSql.ChainFoldsLikeStripping | alcedo_studio/src/app/sleeve_filter_service.cpp:87-147 | the two ways of folding, the REPLACE chain and the stripping function, are equal on all texts exactly when lower case neither makes nor unmakes a separator |
| SearchSql.LikeClauseMeans | alcedo_studio/src/app/sleeve_filter_service.cpp:79-85 | the clause holds exactly when the value contains the text, as written or in lower case |
| SearchSql.FoldedDocumentClause | alcedo_studio/src/app/sleeve_filter_service.cpp:235-254 | there is a clause exactly under the guards, and it holds exactly when the document, folded as the database folds it, contains the token, folded as the program does |
| SearchSql.TokenSearchClause | alcedo_studio/src/app/sleeve_filter_service.cpp:401-457 | the clause selects exactly the rows in which the word hits an enabled field, or its date, or for labels one of its aliases, or the folded document; without fields it is empty |
| SearchSql.EnabledFieldsHit | alcedo_studio/src/app/sleeve_filter_service.cpp:419-450 | the columns listed group by group are exactly the fields of the enabled groups |
| SearchSql.DocumentHas | alcedo_studio/src/app/sleeve_filter_service.cpp:202-232 | the document has exactly the fields of the enabled groups but for three numbers, and the labels only with a model |
| SearchSql.SearchTerms | alcedo_studio/src/app/sleeve_filter_service.cpp:403-416 | the word and its aliases, none twice |
| SearchSql.SearchDocumentClause | alcedo_studio/src/app/sleeve_filter_service.cpp:459-473 | the clause selects exactly the rows whose document contains the query, plainly or folded; without fields it selects none |
| SearchSql.SplitTokens | alcedo_studio/src/app/sleeve_filter_service.cpp:256-267 | the words, each trimmed of what `iswspace` takes for spaces, without those that are then empty |
| SearchSql.WordsAreRuns | alcedo_studio/src/app/sleeve_filter_service.cpp:256-260 | the words are the maximal stretches without delimiters, by position: each one once, in order, and no others |
| SearchSql.WordIffRun | alcedo_studio/src/app/sleeve_filter_service.cpp:256-260 | a text is a word exactly if it is such a stretch |
| SearchSql.TokensAreWords | alcedo_studio/src/app/sleeve_filter_service.cpp:256-267 | tokens are not empty, have no delimiters, and neither begin nor end with a space |
| SearchSql.NoTokens | alcedo_studio/src/app/sleeve_filter_service.cpp:256-267 | there is no token exactly when every character of the query is a delimiter or a space |
| SearchSql.BlankOnly | alcedo_studio/src/app/sleeve_filter_service.cpp:588-591 | if every delimiter is a space, a query that is not blank has a token, so the test for no tokens never succeeds |
| SearchSql.TrimCopy | alcedo_studio/src/app/sleeve_filter_service.cpp:24-34 | the text without the spaces around it |
| SearchSql.TrimmedIs | alcedo_studio/src/app/sleeve_filter_service.cpp:24-34 | trimming keeps exactly the stretch from the first to the last character that is not a space |
| SearchSql.BuildFuzzySearchWhere | alcedo_studio/src/app/sleeve_filter_service.cpp:575-619 | no condition exactly for a blank query or, with some field on, one without tokens; otherwise it selects exactly the rows in which every token hits, or the whole query hits, or the full-text index does with both AI fields on; without fields none |
| Json.MergeJsonObject | alcedo_studio/src/app/adjustment_transfer_service.cpp:349-361 | the in-place merge, in any key order, is the recursive merge |
| Json.MergeReplaces | alcedo_studio/src/app/adjustment_transfer_service.cpp:350-353 | unless both are objects the patch replaces the target |
| Json.PatchWins | alcedo_studio/src/app/adjustment_transfer_service.cpp:349-361 | a value of the patch that is no object is at the same path in the merge, at every depth |
| Json.TargetStays | alcedo_studio/src/app/adjustment_transfer_service.cpp:349-361 | where the patch has nothing at or above a path the merge has what the target has there |
| Json.PatchShapes | alcedo_studio/src/app/adjustment_transfer_service.cpp:349-361 | at every other path the merge has a value, or an object, exactly where the patch has one |
| Json.MergeIdempotent | alcedo_studio/src/app/adjustment_transfer_service.cpp:349-361 | merging the same patch again changes nothing |
| Json.PreserveDRTParams | alcedo_studio/src/app/adjustment_transfer_service.cpp:295-339 | the in-place filling equals the nested fill of missing and replaced settings |
| Json.PreserveTwice | alcedo_studio/src/app/adjustment_transfer_service.cpp:295-339 | overwriting and carrying forward again changes nothing |
| Json.PreservedSettings | alcedo_studio/src/app/adjustment_transfer_service.cpp:295-339 | carrying forward keeps every setting of the target and adds those of the source that it lacks, and so one level further for the parameters; a display-transform or parameter object that is missing or replaced comes back; nothing else changes |
| Json.RefillTwice | alcedo_studio/src/app/adjustment_transfer_service.cpp:382-391 | merging and carrying forward again changes nothing, though the two undo each other's work on some keys |
| AdjustmentTransfer.WritesAgree | alcedo_studio/src/edit/history/edit_transaction.cpp:88-113 | the exact condition under which one entry is written alike directly and by a transaction |
| AdjustmentTransfer.WrittenParameters | alcedo_studio/src/app/adjustment_transfer_service.cpp:573-609 | a direct write leaves the flag of the entry and its parameters; a merging entry leaves its own values at their paths and the values of the slot where it says nothing, and asking for another value is a change |
| AdjustmentTransfer.EnablingIs | alcedo_studio/src/edit/history/edit_transaction.cpp:56-96 | parameters keep an operator from being enabled exactly by a flag that is off, in them or in their only member, or for a look by having no path |
| AdjustmentTransfer.WrittenIsSettled | alcedo_studio/src/app/adjustment_transfer_service.cpp:573-609 | after a direct write the same entry changes nothing |
| AdjustmentTransfer.FlagsAgree | alcedo_studio/src/app/adjustment_transfer_service.cpp:411-430 | for every package both ways report the same change flag |
| AdjustmentTransfer.TransfersAgree | alcedo_studio/src/app/adjustment_transfer_service.cpp:411-430 | for every package both ways reach the same pipeline exactly when, on every slot, the last entry agrees with what the recorded way left there and has the same effective parameters both ways |
| AdjustmentTransfer.LastEntriesDecide | alcedo_studio/src/app/adjustment_transfer_service.cpp:411-430 | for a package without null parameters both ways always leave the same parameters, and they reach the same pipeline exactly when the last entry on each slot agrees |
| AdjustmentTransfer.LockstepIff | alcedo_studio/src/app/adjustment_transfer_service.cpp:411-430 | for every package the two ways reach the same pipeline after every entry exactly when each entry agrees at its turn |
| AdjustmentTransfer.EnabledAgainstItsParameters | alcedo_studio/src/edit/history/edit_transaction.cpp:276-281 | a package on which the two ways differ, and whose transfer reports a change each time |
| AdjustmentTransfer.SecondApplyChangesNothing | alcedo_studio/src/app/adjustment_transfer_service.cpp:573-615 | for every package a second application returns false exactly when the entries that later ones overwrote would change nothing, and then it does change nothing; so always for distinct slots, for any mix of overwriting, merging and display-transform entries |
| AdjustmentTransfer.UndoRestores | alcedo_studio/src/edit/history/edit_transaction.cpp:283-288 | for every package undoing in reverse order restores the pipeline exactly when, slot by slot, the first entry that changes a slot met parameters that do not contradict its being enabled, or met none and brought none, and so on |
| AdjustmentTransfer.AdditionIsNotUndone | alcedo_studio/src/edit/history/edit_transaction.cpp:283-288 | an added operator stays behind, disabled, after undo |
| AdjustmentTransfer.UndoFromTheEnd | alcedo_studio/src/edit/history/version.cpp:377-388 | undoing the last transaction first is undoing all in reverse order |
| AdjustmentTransfer.WorkingVersion.AppendEditTransaction | alcedo_studio/src/edit/history/version.cpp:356-365 | drops what was undone and appends |
| AdjustmentTransfer.WorkingVersion.MoveCursorTo | alcedo_studio/src/edit/history/version.cpp:403-416 | going back undoes the transactions after the target in reverse order, going on redoes them in order |
| AdjustmentTransfer.BuildTransferEdit | alcedo_studio/src/app/adjustment_transfer_service.cpp:367-409 | an edit exactly for an entry that changes its slot, with the states before and after |
| AdjustmentTransfer.ApplyAsTransactions | alcedo_studio/src/app/adjustment_transfer_service.cpp:411-430 | the pipeline, the change flag and the appended transactions are those of the entries in order |
| AdjustmentTransfer.Apply | alcedo_studio/src/app/adjustment_transfer_service.cpp:573-615 | the pipeline and the change flag are those of the direct writes in order |
| VersionNames.StoIDecimal | alcedo_studio/src/app/adjustment_transfer_service.cpp:450-466 | printing and parsing a number gives it back up to the largest int, and fails beyond |
| VersionNames.UniqueVersionDisplayName | alcedo_studio/src/app/adjustment_transfer_service.cpp:432-467 | it is the requested name exactly if neither it nor a numbered form exists, else numbered one above the largest; it is taken by no version exactly if no suffix is the largest int or the name after the overflow is free |
| VersionNames.LargestSuffixHasNoSuccessor | alcedo_studio/src/app/adjustment_transfer_service.cpp:452-457 | why the largest int is special: the next numbered name may exist unseen |
| PackedProject.OutputStream.WriteU32Le | alcedo_studio/src/app/project_package_backend.cpp:58-67 | the four low bytes, least significant first |
| PackedProject.U64Bytes | alcedo_studio/src/app/project_package_backend.cpp:69-77 | the eight low bytes, least significant first |
| PackedProject.U64Value | alcedo_studio/src/app/project_package_backend.cpp:90-101 | the number that eight bytes stand for |
| PackedProject.FromLeLe | alcedo_studio/src/app/project_package_backend.cpp:58-101 | reading what was written gives the number back if it fits |
| PackedProject.LeFromLe | alcedo_studio/src/app/project_package_backend.cpp:58-101 | writing what was read gives the bytes back |
| PackedProject.WritePackedProject | alcedo_studio/src/app/project_package_backend.cpp:699-797 | magic, version, sizes, checksum of header and payloads, metadata, database |
| PackedProject.ReadPackedProject | alcedo_studio/src/app/project_package_backend.cpp:825-937 | the payloads, or the error of the first test that fails |
| PackedProject.ReadAfterWrite | alcedo_studio/src/app/project_package_backend.cpp:699-937 | for every checksum function, reading a written file gives both payloads back exactly when both are within the size limit |
| PackedProject.AcceptedIsWritten | alcedo_studio/src/app/project_package_backend.cpp:825-937 | for every checksum function, a file is read as a pair of payloads exactly when they fit and the file is what the writer produces for them |
| ThreadPool.RunInv | alcedo_studio/src/concurrency/thread_pool.cpp:18-83 | in every interleaving the queue holds exactly the queued tasks in order, each started task has its own worker, each was taken at most once, and a worker leaves only a stopped pool and no timely task behind |
| ThreadPool.TakenInOrder | alcedo_studio/src/concurrency/thread_pool.cpp:60-83 | while a task waits no later one has been taken |
| ThreadPool.DrainedPool | alcedo_studio/src/concurrency/thread_pool.cpp:24-58 | once all workers have left, with nothing submitted after the stop, every task was taken once and finished, or never and was dropped |
| ThreadPool.OnlyShutdownDrops | alcedo_studio/src/concurrency/thread_pool.cpp:41-58 | no task is dropped in a run without `Shutdown`, so the destructor drains the queue |
| ThreadPool.NothingStartsAfterShutdown | alcedo_studio/src/concurrency/thread_pool.cpp:41-58 | once the queue is dropped no task is taken any more, and those in flight keep their one run |
| ThreadPool.StoppedPoolMoves | alcedo_studio/src/concurrency/thread_pool.cpp:24-39 | a stopped pool with a worker left can move, so the joins return |
| ThreadPool.WorkerAdvances | alcedo_studio/src/concurrency/thread_pool.cpp:68-83 | every step of a worker decreases a measure |
| ThreadPool.RunsAreBounded | alcedo_studio/src/concurrency/thread_pool.cpp:18-83 | a run without submissions, however the stops come between, has no more worker steps than the measure it starts with |
| ThreadPool.StoppedPoolEnds | alcedo_studio/src/concurrency/thread_pool.cpp:24-58 | from every reachable stopped state the workers make a bounded number of steps unless tasks are submitted, and once none can move all have left |
| ExportJob.RunInv | alcedo_studio/src/app/export_service.cpp:150-231 | in every interleaving the counters count the tasks past their increments, results and tasks correspond, and the completion counter gives every task its own number |
| ExportJob.CallbackAfterEverything | alcedo_studio/src/app/export_service.cpp:187-229 | the final callback runs at most once, only when every task has stored one result and counted, with succeeded and failed the numbers of good and bad results and their sum the total |
| ExportJob.ResultsReportRendering | alcedo_studio/src/app/export_service.cpp:150-229 | in every interleaving each result reports how the picture of its task was rendered in that run, and the counters count the tasks that were rendered and those that were not |
| ExportJob.FinishedRunCalledBack | alcedo_studio/src/app/export_service.cpp:150-231 | with a worker in the pool, a run that cannot go on has called back exactly once |
| ExportJob.RunsAreBounded | alcedo_studio/src/app/export_service.cpp:150-231 | every run ends within seven steps a task |
| ExportJob.TakeKeeps | alcedo_studio/src/concurrency/thread_pool.cpp:68-83 | only a worker without a task takes one, it takes the first that waits, and the invariant is kept |
| ImportJob.RunInv | alcedo_studio/src/app/import_service.cpp:50-217 | in every interleaving counters match the paths, what a finishing thread has read stays true, and a settled job is reported or about to be |
| ImportJob.ReportAccountsForAll | alcedo_studio/src/app/import_service.cpp:27-48 | the job reports at most once, only after every task has ended, with imported plus failed equal to requested |
| ImportJob.CountersReportTasks | alcedo_studio/src/app/import_service.cpp:27-48 | in every interleaving the counters count the paths whose task ended well in that run, and those that failed early or whose task did not |
| ImportJob.FinishedRunReported | alcedo_studio/src/app/import_service.cpp:70-217 | with a worker in the pool, a run that cannot go on has reported exactly once |
| ImportJob.SettledMeans | alcedo_studio/src/app/import_service.cpp:38-48 | closed submission and equal task counters mean that every path failed early or its task ended, and all are counted |
| ImportJob.RunsAreBounded | alcedo_studio/src/app/import_service.cpp:70-217 | every run ends |
| ToneCurves.MaskedSumAndUpper | scripts/diagnose_hs_sky_ev_cases.py:136-296 | for every increasing table the sum of masked segments, with the upper mask of the last breakpoint, is the interpolation at every point |
| ToneCurves.MaskedSumIsInterp | scripts/diagnose_hs_sky_ev_cases.py:136-189 | without the upper mask the sum is the interpolation at every point exactly when the table ends at zero |
| ToneCurves.OrderIffSlopes | scripts/diagnose_hs_sky_ev_cases.py:171-189 | for every increasing table the tone map is strictly increasing for all amounts from zero to one exactly when every segment falls by less than its width |
| ToneCurves.SkyLift | scripts/diagnose_hs_sky_ev_cases.py:171-189 | the sky table: masked sum equals interpolation, and the tone map is strictly increasing |
| ToneCurves.LocalLift | scripts/diagnose_hs_local_tone.py:73-85 | the local table: the tone map is strictly increasing |
| ToneCurves.ShadowReferenceLiftDelta | scripts/diagnose_hs_local_tone.py:73-85 | the scan of the table is the interpolation at every point |
| ToneCurves.JointReduction | scripts/tune_hs_joint_curve.py:28-50 | a tone less any share of the joint reduction is strictly increasing |
| ToneCurves.SkyReductionOrder | scripts/diagnose_hs_sky_ev_cases.py:299-302 | a tone less the sky reduction is strictly increasing exactly when the reduction takes fewer stops than its width |
| ToneCurves.FitJointPoints | scripts/tune_hs_joint_curve.py:53-76 | the fitted table begins at zero and never falls nor exceeds the single curve; each stage rises at most by the shadow limit and by the limit of its stage, negative limits counting as zero, and stays below the single curve only at one of them |
| ToneCurves.SingleIsLine | scripts/tune_hs_joint_curve.py:43-44 | the single curve is the line from nothing at zero to three stops at four, and level outside |

## Left out

- AnalysisJob.ConsumerKeeps: a result and the bump of its counter are one step, as are the results of a cancelled batch; the barrier flag, which is always stored with the cancel flag, is the same flag.
- AnalysisSystem.OneCallAtATime: thumbnail pins are not counted, because a cancelled producer can leave a ready thumbnail unreleased.
- Image analysis: registration, revocation and renewal of provider credentials, progress callbacks, the sidecar lease, the texts of errors, and exceptions that escape the producer; a failure to start the producer thread has the effect of a failed registration.
- Sha256Code.Sha256: the standard bounds messages at 2^64 bits; beyond that the length wraps alike in code and model.
- CredentialCrypto.XorCrypt: counters are written in the byte order of a little-endian machine, and the 64-bit counter does not wrap.
- CredentialStore.StoresAgree: file operations succeed, and the directory holds only files the store wrote; the Windows and macOS keychains and the hexadecimal helpers are not modelled.
- KeyDerivation.DeriveKeyFromPassword: the library's SHA-256 is represented by the verified one; the OpenSSL path and AES-GCM are not modelled.
- HistoryService.EditHistoryMgmtService.Sync: the contents are tied to what was committed while guards are changed and given back by the file's owner; other guards are followed in map, list and storage only. Storage failures, `DeleteHistories` (a loop of deletions) and the structure of a history are not modelled.
- PipelineService.PipelineMgmtService.SavePipeline: render locks are a yes or no per attempt, and contents are tied to the last edit for guards that are in the map; the `pinned` flag that an eviction clears is proved to be clear already; execution stages, buffers, default operators, backend preferences and snapshots are not modelled.
- SearchSql.TokenSearchClause: the comparisons with dates parsed from a word are one opaque test of the row; column expressions and sub-queries are columns that may be NULL.
- SearchSql.BuildFuzzySearchWhere: statements are trees in which only the literals are text; the database's LOWER and the program's `towlower` are the same function, characters are not re-encoded, and field masks have no bits but the four named ones; filter combinations, result caches and statistics are not modelled.
- AdjustmentTransfer.TransfersAgree: an operator returns the parameters it was given, JSON numbers are integers, and hashes, ids and exported head parameters of a version are not modelled; selecting, importing and exporting packages are left out.
- VersionNames.UniqueVersionDisplayName: adding one to the largest int is undefined in the program; the model lets it give any int.
- PackedProject.ReadPackedProject: files are read and written without input or output failures, and the rename that publishes a written file is not modelled.
- ExportJob.CallbackAfterEverything: what progress callbacks read, rendering itself, and shutting the pool down, after which dropped tasks would be missed; workers are counted, not named.
- ThreadPool.DrainedPool: tasks submitted after the stop are outside the statement, because the workers may be gone.
- ImportJob.ReportAccountsForAll: cancelled imports, for which the counters are read one after the other; file system writes, metadata and the import log.
- ToneCurves.FitJointPoints: the sampled shadow slopes are given as one limit per stage, over the reals; exponential and logarithmic parts of the scripts and all rounding are left out.
