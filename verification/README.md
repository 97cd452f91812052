# Verification of the identity SDK, server and analytics indexer

This project models the parts of the repository whose behaviour is hardest to see from one function, and
proves properties of them with Dafny 4.11. `dafny verify dfyconfig.toml` checks everything.

* **Merkle batches** (`Hex`, `Rfc6962`, `LevelTree`, `CredentialMerkle`, `SdkMerkle`). SHA-256 is any function to
  32-byte digests; where a statement needs collision resistance, it names the two colliding inputs instead.
* **Request scheduling** (`RequestQueue`, `RequestQueueProgress`, `QueueOutcomes`, `RequestQueueClass`,
  `Failover`, `RunConcurrent`). The queue is a step machine whose runs are all interleavings of enqueues (also
  from within a call), calls ending, slots being given back, timers firing and dispose; the queue object is proved
  to take steps of that machine. The bounded mapper picks the next call to settle arbitrarily.
* **The analytics indexer and its log** (`AnalyticsStore`, `Indexer`, `ExactlyOnce`, `IndexerRuns`,
  `CursorProgress`). A run is any sequence of RPC answers, exceptions part-way through a page, saves and restarts;
  the methods of the indexer are proved to extend such runs. `Metrics` and `Summary` fold the log into daily series.
* **The rotating access log** (`RotatingLog`). A run may stop after any single rename.
* **Printers, each with a reader** (`Text`, `Decimal`, `PdfFile`, `PdfExport`, `XmlExport`, `CsvReport`). The
  PDF reader follows sections 7.3.4.2, 7.5.4 and 7.5.5 of ISO 32000-1, the XML one section 4.6 of XML 1.0, and
  the CSV one section 2 of RFC 4180 with line feeds as line ends.
* **Server state** (`Billing`, `ApiKeys`, `ApiKeyStore`, `RateLimiter`, `Batch`).

Objects that the source updates in place are classes; each of their methods states its whole new state through
a function of the old one, and the lemmas are about those functions and about runs of them. What such a function
means is stated apart from it as well, as a relation between what goes in and what comes out: the bytes an id
spells, where a request starts, what a reply leaves of a request, the characters a reader gets, the file a line is in.

What the properties hold under:

* Times, randomness and the answers of outside services are parameters. New ids and new API key hashes are
  fresh; file operations complete in the order they were started; JSON encoding loses nothing.
* Amounts of money and counts are whole numbers; percentages and fixed dollar amounts are real numbers.

Where the code differs from what is written about it, the model follows the code:

* `sdk/src/types.ts:549` says the odd node of a level is duplicated; `sdk/src/credentials.ts:273` promotes it.
* The log of the indexer is not always in chain order: after a range error, a start ledger lower than the first
  one makes older events arrive second (`ExactlyOnce.RewindBreaksChainOrder`). `PageKeepsChainOrderIff` says
  exactly when a page keeps the order, `IndexerRuns.RunInChainOrderIff` exactly when both logs keep it
  throughout a run; `LogsInChainOrder` gives a condition on the requests alone.
* A failover call re-reads the shared server index on each attempt. It tries no server twice, and with all its
  attempts reaches every server, exactly when other calls never move that index back by the number of attempts in
  between, up to whole rounds (`Failover.TriesEachOnceIff`, `ReachesAllIff`); with any number of servers a single
  move can make it miss one (`DisturbedCallCanSkipAServer`).
* An append that fails after a credential was created leaves it out of the compensation of an atomic batch
  (`Batch.CompensatedIff`).
* A negative subtotal with an active discount is lifted to zero, and the Stripe items do not show it
  (`Billing.StripeItemsAddUp`); for the same reason a first discount can raise a negative total
  (`InsertNeverRaises`).
* With a limit below one or an empty window, the remaining count of the rate limiter is not the number of calls
  it would let through (`RateLimiter.RemainingIsExact`); `CsvReport.CsvRoundTripIff` says which tables come back.

## Model

| member | source | states |
|---|---|---|
| Rfc6962.RootBinding | sdk/src/credentials.ts:264-279 | Two different lists with the same tree hash give two different inputs with the same digest, computed from the lists |
| Rfc6962.PathSoundness | sdk/src/credentials.ts:358-366 | A path of any length and any sides that resolves to the tree hash for a datum outside the list gives a collision, computed from the path and the tree |
| LevelTree.NextLevelKeepsRoot | sdk/src/credentials.ts:264-279 | Pairing neighbours and promoting the odd node leaves the root of the tree that splits at the largest power of two unchanged |
| LevelTree.LevelPathIsPath | sdk/src/credentials.ts:314-328 | Siblings collected level by level are, in order and side, the recursive path of that tree |
| LevelTree.LevelPathLength | sdk/src/credentials.ts:314-328 | A level of at most 2^d nodes has paths of at most d siblings |
| LevelTree.BuildNextLevel | sdk/src/credentials.ts:265-276 | The pairing loop computes the next level, odd node promoted |
| LevelTree.BuildLevels | sdk/src/credentials.ts:259-280 | The loop returns all levels, each built from the one below, ending in the recursive root |
| LevelTree.CollectPath | sdk/src/credentials.ts:314-328 | The index-halving loop returns exactly the siblings that exist, bottom up |
| Hex.LowerEqualsEncodedIff | sdk/src/credentials.ts:366-367 | Comparing a lower-cased text with a digest printed in hexadecimal tells exactly whether the text spells the digest, in capitals or not |
| Hex.SpelledIsDecoded | sdk/src/credentials.ts:226-242 | A text that spells bytes, digit by digit and in either case, is decoded to those bytes |
| CredentialMerkle.IdMeans | sdk/src/credentials.ts:215-224 | The normalised form of an id decodes to exactly the 32 bytes that the id itself spells, with or without 0x, in either case |
| CredentialMerkle.AllMean | sdk/src/credentials.ts:264-264 | Entry i of the data of a batch is the bytes that id i itself spells |
| CredentialMerkle.HexRootIsMth | sdk/src/credentials.ts:226-243 | Over hexadecimal strings, the recursive root is the Merkle Tree Hash of section 2.1 of RFC 6962 of the decoded data |
| CredentialMerkle.BuildMerkleTree | sdk/src/credentials.ts:257-281 | Rejects an empty batch and an id that spells no 32 bytes; otherwise the leaves are the digests of 00 and the bytes each id spells (either case, with or without 0x), each level pairs the one below with 01, the odd node moving up, and the root spells the RFC's tree hash of those bytes |
| CredentialMerkle.GeneratedPathIsAuditPath | sdk/src/credentials.ts:314-328 | The hashes of a generated path are, in order, the audit path of section 2.1.1 of RFC 6962 |
| CredentialMerkle.GenerateMerkleProof | sdk/src/credentials.ts:300-337 | For a member, the proof over bytes of its first occurrence: the batch root and the audit path, which resolves to it; an error exactly for ids that spell no 32 bytes and for a stranger |
| CredentialMerkle.VerifyMerkleProof | sdk/src/credentials.ts:350-369 | True exactly when the id and the siblings spell bytes that resolve to the digest the expected root spells, in either case |
| CredentialMerkle.AcceptsMeans | sdk/src/credentials.ts:350-369 | For the bytes the id and the siblings spell, the verdict is whether they resolve to what the expected root spells |
| CredentialMerkle.ProofCompleteness | sdk/src/credentials.ts:300-369 | Every generated proof verifies against its batch root and has at most ceil(log2 n) entries |
| CredentialMerkle.ProofSoundness | sdk/src/credentials.ts:350-369 | If the verifier says true against a root that spells the tree hash of some data, the bytes that the proof's id spells are among the data, or two inputs with one digest are computed |
| CredentialMerkle.BatchBinding | sdk/src/credentials.ts:257-281 | Two built trees of any sizes whose roots spell one digest come from the same bytes in the same order, or two inputs with one digest are computed |
| SdkMerkle.BuildMerkleTree | sdk/src/merkle.ts:49-72 | Same root, leaves and levels as the first implementation, for every batch |
| SdkMerkle.VerifyMerkleProof | sdk/src/merkle.ts:130-149 | True exactly when the siblings resolve, from the digest the leaf spells or the hash of the bytes the id spells, to the digest the expected root spells |
| SdkMerkle.AcceptsMeans | sdk/src/merkle.ts:130-149 | The same for any leaf and siblings, over the bytes they spell |
| SdkMerkle.GenerateMerkleProof | sdk/src/merkle.ts:86-128 | Same root, index, leaf count and siblings as the first implementation, each side given twice consistently |
| SdkMerkle.VerifiersAgree | sdk/src/merkle.ts:130-149 | Both verifiers give the same verdict when the leaf is the id's own hash and the two side fields agree |
| SdkMerkle.GeneratedProofVerifiesInBoth | sdk/src/merkle.ts:86-149 | A generated proof is accepted by both verifiers |
| AnalyticsStore.Store.constructor | analytics/src/store.ts:90-105 | A new process holds what the file holds and has seen exactly the logged ids |
| AnalyticsStore.Store.Add | analytics/src/store.ts:107-113 | Appends a record to the list of its kind once per id, and tells whether it did |
| AnalyticsStore.Store.SetCursor | analytics/src/store.ts:133-136 | Changes the cursor only, and marks the store unsaved |
| AnalyticsStore.Store.Flush | analytics/src/store.ts:139-151 | Afterwards the file reads back as the log and cursor together; one change event if records had arrived |
| Indexer.EventIndexer.HandlePage | analytics/src/indexer.ts:134-134 | Handles the events of a page in order and leaves the cursor alone |
| CursorProgress.DecodesTo | analytics/src/indexer.ts:167-217 | An event is decoded to a record exactly when it comes from the right contract with the right topic and carries that record's fields |
| Indexer.EventIndexer.PollEvents | analytics/src/indexer.ts:108-145 | Any answers of the RPC, part-handled pages and range errors take the log where the specification does |
| Indexer.EventIndexer.Tick | analytics/src/indexer.ts:85-98 | Does nothing while another tick runs; otherwise whatever was read is in the file afterwards |
| ExactlyOnce.HandleAllKeeps | analytics/src/indexer.ts:134-134 | Handling the events of a page keeps each list equal to the history of handled events and the seen set equal to their ids |
| ExactlyOnce.LoadedSeenMatches | analytics/src/store.ts:90-105 | The ids collected on load are those of the events the file logs |
| ExactlyOnce.RunKeeps | analytics/src/indexer.ts:85-165 | In every reachable world memory and file each match their own history and cover their cursor |
| ExactlyOnce.LoggedAtMostOnce | analytics/src/store.ts:107-151 | Over any run both logs are free of duplicates and hold every relevant event from where their cursor's session began up to that cursor |
| ExactlyOnce.SavedIsNeverLost | analytics/src/store.ts:139-151 | What was in the file at one moment is a prefix of the file and of the memory at every later one |
| ExactlyOnce.PageKeepsChainOrderIff | analytics/src/indexer.ts:134-138 | A page keeps a list in chain order exactly when it brings no new event that precedes a logged one |
| IndexerRuns.PollIsStretch | analytics/src/indexer.ts:108-145 | Whatever the RPC answers, a poll is a stretch of enabled answer steps of the machine, from any world |
| IndexerRuns.TickExtendsRun | analytics/src/indexer.ts:85-98 | A tick after any run makes a longer run: the poll's answers, then a save |
| IndexerRuns.Restarted | analytics/src/store.ts:90-105 | A new process stands in the world a restart leads to |
| IndexerRuns.TickOnRun | analytics/src/indexer.ts:85-98 | A tick keeps the store object at the end of a run, so its lists are free of duplicates and hold everything up to the cursor |
| CursorProgress.AnswerMovesCursor | analytics/src/indexer.ts:117-164 | After a page handled to its end the next request starts right behind it, whatever the initial ledger; after a part-handled page or a failure at the same place; after a range error in the ledger after the one named, or the initial one |
| CursorProgress.PollGoesOn | analytics/src/indexer.ts:117-145 | A poll asks again after a full page and after a range error that names a ledger, and after nothing else |
| CursorProgress.PollReadsOn | analytics/src/indexer.ts:117-145 | A poll that gets full pages and one short page moves the cursor past them all, lists every relevant event of theirs and loses none listed before |
| CursorProgress.TickReadsOn | analytics/src/indexer.ts:85-145 | At the end of any run a tick with such a poll leaves that in the file too; if the pages reach the end of the chain, the cursor stands there |
| CursorProgress.SecondPageFollowsFirst | analytics/src/indexer.ts:117-145 | From an empty store 1001 events are read in two pages and all the relevant ones are listed |
| IndexerRuns.StepKeepsOrderIff | analytics/src/indexer.ts:134-138 | From ordered logs, a step of any kind keeps both logs in chain order exactly when it brings no event late |
| IndexerRuns.RunInChainOrderIff | analytics/src/indexer.ts:108-165 | Both logs are in chain order at every moment of a run exactly when no page of it brings an event late |
| ExactlyOnce.LogsInChainOrder | analytics/src/indexer.ts:108-165 | A condition on the requests alone: if no read goes back before the start of its session, both logs are in chain order throughout |
| ExactlyOnce.LogsAreCleanPasses | analytics/src/indexer.ts:108-165 | With no retention gap both logs are always one clean pass over a stretch of the chain; caught up, to its end |
| ExactlyOnce.EmptyPageSkipsNothing | analytics/src/indexer.ts:137-141 | Moving the start ledger forward after an empty page loses no event the RPC has not shown |
| ExactlyOnce.RewindBreaksChainOrder | analytics/src/indexer.ts:152-165 | A concrete run with a range error whose log is out of chain order |
| RequestQueue.StepKeeps | sdk/src/request-queue.ts:61-151 | Every step keeps the invariant: places, slots, budgets, and no idle slot while something is queued |
| RequestQueue.RunKeeps | sdk/src/request-queue.ts:61-151 | The invariant holds in every reachable state |
| RequestQueue.QueueSafety | sdk/src/request-queue.ts:92-151 | Each accepted request is in exactly one of queued, running, waiting, settled; settles at most once; slots are never exceeded; calls and RPC attempts stay within the retry budget |
| RequestQueue.QueueNeverIdle | sdk/src/request-queue.ts:92-110 | In every reachable state, between loop turns, a non-empty queue means that all slots are taken |
| RequestQueue.SettledIsFinal | sdk/src/request-queue.ts:112-130 | No step changes a settled request |
| RequestQueue.SettledStays | sdk/src/request-queue.ts:112-130 | Once settled, a request is the same in every later state |
| RequestQueue.DisposeRejectsQueued | sdk/src/request-queue.ts:82-90 | Dispose rejects exactly the queued requests and touches no other |
| RequestQueue.DisposedCalls | sdk/src/request-queue.ts:61-64 | After dispose nothing is accepted, and a request makes at most the calls its unused retries allow |
| RequestQueue.AttemptBoundIsProduct | sdk/src/base-client.ts:309-346 | The attempt budget is the number of servers times the number of calls |
| QueueOutcomes.OutcomeIff | sdk/src/request-queue.ts:82-130 | In any run a request is settled in a way exactly when a step settled it so: the reply that settles it after so many failures, or the first dispose while it was queued |
| QueueOutcomes.ResolvesIff | sdk/src/request-queue.ts:112-116 | The promise of a request resolves exactly when one of its calls returned |
| QueueOutcomes.TimerIff | sdk/src/request-queue.ts:116-180 | A call that ends arms a timer exactly when it failed with a 429 or a transient error and had failed fewer than maxRetries times; the delay is the Retry-After seconds, or the base delay doubled at most three times |
| QueueOutcomes.FirstCallsInOrder | sdk/src/request-queue.ts:92-110 | In any run requests are called for the first time in the order they were accepted |
| QueueOutcomes.RetriesGoFirst | sdk/src/request-queue.ts:118-124 | A request to be tried again is ahead of every request that waits for its first call |
| QueueOutcomes.CallsTheHead | sdk/src/request-queue.ts:99-102 | A call is made exactly for the head of the queue, at a turn that finds a free slot |
| RequestQueueProgress.MeasureFalls | sdk/src/request-queue.ts:92-151 | Every step that does not come from outside makes the measure smaller |
| RequestQueueProgress.SomeStepIsEnabled | sdk/src/request-queue.ts:92-130 | With a slot, as long as a request is unsettled some internal step can be taken |
| RequestQueueProgress.MaximalRunsSettleAll | sdk/src/request-queue.ts:92-130 | A run of internal steps is no longer than the measure, and one that cannot go on has settled every request |
| RequestQueueProgress.NoSlotNoCall | sdk/src/request-queue.ts:92-95 | With maxConcurrent 0 no call is ever made |
| RequestQueueClass.DrainedIsRun | sdk/src/request-queue.ts:92-110 | What the processing loop does is a run of loop turns of the machine, and ends with the loop at rest |
| RequestQueueClass.Queue.ProcessQueue | sdk/src/request-queue.ts:92-110 | The guard and the loop take the queue to the drained state |
| RequestQueueClass.Queue.Enqueue | sdk/src/request-queue.ts:61-80 | Accepts unless disposed, then drains |
| RequestQueueClass.Queue.Dispose | sdk/src/request-queue.ts:82-90 | Settles the queued requests one by one as the machine's dispose does |
| RequestQueueClass.Queue.CallReturned | sdk/src/request-queue.ts:112-130 | Resolves on a result; otherwise arms a timer with the delay due, or rejects with the error or a rate-limit error, and changes no other request |
| RequestQueueClass.Queue.SlotReleased | sdk/src/request-queue.ts:100-108 | Gives the slot back and drains |
| RequestQueueClass.Queue.TimerFired | sdk/src/request-queue.ts:118-124 | Puts the request in front of the queue, also after dispose, and drains |
| Failover.BaseClient.Call | sdk/src/base-client.ts:313-356 | At most one attempt per server, all but the last a network error; attempt i goes to the i-th server after the index it reads; only success moves the shared index |
| Failover.UndisturbedCallTriesEachOnce | sdk/src/base-client.ts:316-319 | In particular, if no other call moves the index meanwhile, no server is tried twice |
| Failover.TriesEachOnceIff | sdk/src/base-client.ts:316-319 | A call tries no server twice exactly when other calls never undo its progress: between no two attempts is the shared index moved back by the number of attempts in between, up to whole rounds |
| Failover.ReachesAllIff | sdk/src/base-client.ts:316-347 | A call that made all its attempts reached every server under exactly the same condition |
| Failover.DisturbedCallCanSkipAServer | sdk/src/base-client.ts:317-323 | With any number of servers from two on, one move after the first attempt makes a call try one server twice and another never |
| RunConcurrent.ResolveKeeps | sdk/src/utils.ts:164-169 | Whichever awaited call resolves next, every result stays in its place and every pending index is awaited once |
| RunConcurrent.RejectKeeps | sdk/src/utils.ts:164-169 | A call that rejects stops its worker only |
| RunConcurrent.Run | sdk/src/utils.ts:156-177 | In every interleaving the promise rejects exactly when the mapper rejects some item, with the error of a call that was made; otherwise results are in input order and each index was called once, in order; before each settlement at most `concurrency` calls are in flight, exactly that many (or all that are left) if none rejects; without positive concurrency nothing runs |
| RotatingLog.RotationRetains | server/src/access-log.js:183-205 | From the first rename on, wherever the process stops, the log holds exactly the lines of all files but the oldest (that one too if nothing was renamed over it) |
| RotatingLog.RotationWithoutRetention | server/src/access-log.js:191-205 | With no rotated files allowed a rotation empties the log |
| RotatingLog.OpsKeepSuffix | server/src/access-log.js:183-205 | After any number of the rotation's file operations the log is a suffix of what it was and every file fits |
| RotatingLog.RotationCompletes | server/src/access-log.js:183-205 | A completed rotation leaves no current file and at most maxFiles rotated ones |
| RotatingLog.RotatingFileSink.Open | server/src/access-log.js:162-172 | The counter is the size of the file, which is created if missing |
| RotatingLog.RotatingFileSink.Rotate | server/src/access-log.js:177-209 | The renames and the unlink, in order, then an empty current file |
| RotatingLog.RotatingFileSink.Write | server/src/access-log.js:211-223 | Appends the line if it fits or the file is empty, every other file unchanged; otherwise every file moves up by one number, the oldest is dropped only if one moves over it, and the line starts a new file |
| RotatingLog.RunKeepsLog | server/src/access-log.js:162-223 | In every reachable directory the files, oldest first, are a whole-line suffix of everything written, and each is at most maxBytes or one line |
| RotatingLog.CompletedWriteAddsItsLine | server/src/access-log.js:211-223 | In any run a completed write leaves everything and its own line if there was room; otherwise the retained lines and its own, and at most maxFiles rotated files |
| RotatingLog.WriteGoesInRun | server/src/access-log.js:162-223 | In any run a line that fits beside the current file's lines (line feeds included), or meets an empty file, is appended and no other file changes; any other write makes each file the next number's, and the line alone is the current file |
| RotatingLog.BytesAppend | server/src/access-log.js:214-222 | The size of a file is the bytes of its lines and one line feed each |
| PdfFile.Write | sdk/src/export.ts:247-280 | The loops write header, objects, table from the recorded offsets and trailer |
| PdfFile.ObjectIsFound | sdk/src/export.ts:260-277 | Following startxref and the table leads to each object, whole, for files of at most 10^10 bytes |
| PdfExport.ChainIsOnePass | sdk/src/export.ts:217-224 | The chained replacements are one pass over the characters |
| PdfExport.UnitIsWritten | sdk/src/export.ts:217-224 | Wherever it stands, a backslash or parenthesis is written with a backslash before it, a unit outside 0x20 to 0x7E as a question mark, any other as itself |
| PdfExport.StringIsRead | sdk/src/export.ts:217-224 | Reading a printed string undoes the escapes and gives the text with unprintable characters replaced |
| PdfExport.StringIsShown | sdk/src/export.ts:217-224 | A written string is read back character by character: the unit itself from 0x20 to 0x7E, a question mark otherwise |
| PdfExport.ItemsAreRead | sdk/src/export.ts:235-238 | The text operators of the content stream read back as their lines |
| PdfExport.StreamIsRead | sdk/src/export.ts:244-244 | The declared length delimits the stream exactly |
| PdfExport.PdfRoundTrip | sdk/src/export.ts:233-280 | The reader recovers the first 60 lines, each as long as it was, character by character: the unit itself from 0x20 to 0x7E, a question mark otherwise |
| PdfExport.CredentialToPdf | sdk/src/export.ts:233-280 | The file written reads back as the first 60 lines in that sense, and every object is found at its recorded offset |
| XmlExport.ChainIsOnePass | sdk/src/export.ts:144-153 | Stripping and the five chained replacements are one pass over the characters |
| XmlExport.UnitIsWritten | sdk/src/export.ts:144-153 | Wherever it stands, each of the five special characters is written as its named reference, a control character other than tab, LF and CR as nothing, any other as itself |
| XmlExport.XmlRoundTrip | sdk/src/export.ts:144-153 | Decoding the escaped text gives the text without the characters XML forbids |
| XmlExport.StripIs | sdk/src/export.ts:151-152 | What the round trip takes out is exactly the control characters other than tab, line feed and carriage return |
| CsvReport.CellIsRead | analytics/src/reports.ts:9-12 | A printed cell before a separator reads back as the cell |
| CsvReport.CellIsPrinted | analytics/src/reports.ts:9-12 | A cell is quoted, with its quotes doubled, exactly when it holds a quote, a comma or a line feed |
| CsvReport.RoundTripWithColumns | analytics/src/reports.ts:14-18 | With clean headers and a column every header and cell is recovered |
| CsvReport.TableIsRead | analytics/src/reports.ts:14-18 | Row r, column c of what is read is the text of row r's entry under header c, nothing for a null or missing one |
| CsvReport.CsvRoundTripIff | analytics/src/reports.ts:14-18 | Every table comes back exactly when it is empty, or has a column and no header holding a quote, comma or line feed |
| Billing.NormalizeDiscount | server/src/billing.js:281-321 | Exactly the requests with a known type, percentages of 0 to 100 and numbers that are not negative get through, with the terms they ask for |
| Billing.ApplyDiscountsToAmount | server/src/billing.js:334-351 | The loop leaves the chained amount and lists what each discount took off |
| Billing.StepsAddUp | server/src/billing.js:334-351 | The listed reductions account for the difference to the cent |
| Billing.ReductionTakesOff | server/src/billing.js:337-347 | A discount takes off the whole cents nearest to its part, halves upwards, but no more than the amount |
| Billing.TotalInRange | server/src/billing.js:334-351 | The total lies between zero and the subtotal exactly when the subtotal is not negative |
| Billing.ChainMonotone | server/src/billing.js:334-351 | A larger subtotal never gives a smaller total |
| Billing.InsertNeverRaises | server/src/billing.js:334-351 | For every amount, a discount inserted anywhere never raises the total exactly when the amount is not negative or another discount is there |
| Billing.WithinHalfACentEach | server/src/billing.js:334-351 | For every subtotal, negative ones too, the total is within half a cent per discount of exact real arithmetic |
| Billing.ActiveIs | server/src/billing.js:323-332 | The active discounts are, in order, those that do not expire before now and whose threshold the calls reach |
| Billing.GrantNeverRaisesTotal | server/src/billing.js:323-332 | One more granted discount never raises what a period costs exactly when the subtotal is not negative, another discount is active, or the new one is not |
| Billing.CalculateInvoice | server/src/billing.js:357-422 | The lines are the base fee, the included calls if limited, and the calls past them at their price, each figure the customer's own or the tier's; they add up to the subtotal; the discounts that apply take, in order, the nearest cent of their part of what is left, never more than that |
| Billing.CreateStripeItems | server/src/billing.js:490-512 | The loops create the non-zero lines and one item for a positive total reduction |
| Billing.StripeItemsAddUp | server/src/billing.js:490-512 | The created items sum to totalCents exactly when the subtotal is not negative or no discount is active |
| ApiKeys.StepKeeps | server/src/api-keys.js:69-276 | Every operation keeps ids and hashes distinct and no retired hash active |
| ApiKeys.RetiredNeverValidates | server/src/api-keys.js:206-260 | A key once revoked, rotated away or deleted never validates again, at any time and after any operations and reloads |
| ApiKeys.NewKeyValidates | server/src/api-keys.js:69-116 | The key handed out by an issue or a rotation validates at once unless it has expired |
| ApiKeys.KeyValidatesUntilRetired | server/src/api-keys.js:121-151 | A key that validates keeps validating at that time until it is retired itself |
| ApiKeys.ScanMeans | server/src/api-keys.js:121-151 | The search answers with a record exactly when it has the hash, is active, and has no expiry, or zero, or one not before now |
| ApiKeys.StepDoes | server/src/api-keys.js:69-276 | Each operation appends its record, or changes the one record it is about in the fields it should, or nothing at all |
| ApiKeys.RetiresIff | server/src/api-keys.js:206-260 | The retired hash is exactly that of the record revoked, deleted or rotated |
| ApiKeyStore.LookUpIsScan | server/src/api-keys.js:121-144 | The indexed lookup with its checks is the linear search for a live record with that hash |
| ApiKeyStore.ApiKeyService.Load | server/src/api-keys.js:27-53 | Reading the file back indexes every record, revoked ones too, and changes no state |
| ApiKeyStore.ApiKeyService.IssueKey | server/src/api-keys.js:69-116 | Appends an active record that expires the given days of 86400000 ms later, indexes and persists it |
| ApiKeyStore.ApiKeyService.ValidateKey | server/src/api-keys.js:121-151 | Answers with the record that has the hash, is active and has not expired, its last use set, and None if there is none; only that record changes |
| ApiKeyStore.ApiKeyService.RevokeKey | server/src/api-keys.js:206-216 | Sets the record's status and nothing else, and keeps the index consistent; false exactly for an unknown id |
| ApiKeyStore.ApiKeyService.DeleteKey | server/src/api-keys.js:221-230 | Removes the record and keeps the index consistent; false exactly for an unknown id |
| ApiKeyStore.ApiKeyService.RotateKey | server/src/api-keys.js:235-276 | Gives the record a new hash and makes it active, keeps or moves its expiry, and keeps the index consistent; false exactly for an unknown id |
| RateLimiter.Limiter.IsLimited | server/skipper/rateLimit.ts:58-75 | Opens a window or counts the request, and answers whether it is over the limit |
| RateLimiter.Limiter.GetRemaining | server/skipper/rateLimit.ts:80-89 | The remaining count of the open window, or the limit |
| RateLimiter.Limiter.Cleanup | server/skipper/rateLimit.ts:105-112 | Deletes exactly the expired entries, in any visiting order |
| RateLimiter.Limiter.GetResetTime | server/skipper/rateLimit.ts:94-98 | A client that is limited stays so, if it makes no further call, exactly until this time |
| RateLimiter.RemainingIsExact | server/skipper/rateLimit.ts:80-89 | The remaining count is the number of further calls admitted at that instant exactly when a window is open or window and limit are positive |
| RateLimiter.AdmitsBound | server/skipper/rateLimit.ts:58-75 | In any run with any clients and cleanups a client gets at most 2 * maxRequests - 1 admissions in any half-open interval of windowMs |
| RateLimiter.BoundIsReached | server/skipper/rateLimit.ts:62-74 | For every limit and window of at least two ticks a run reaches that bound |
| RateLimiter.WorstRunInOrder | server/skipper/rateLimit.ts:62-74 | The times of that run never decrease |
| RateLimiter.CleanupChangesNoAnswer | server/skipper/rateLimit.ts:103-114 | Erasing all cleanups from a run changes neither verdict nor remaining count at any later time |
| Metrics.Buckets | analytics/src/metrics.ts:85-89 | Exactly the contiguous multiples of the size from the first floor to the last |
| Metrics.CountBy | analytics/src/metrics.ts:91-98 | The map holds the count of every key that occurs and no other |
| Metrics.SeriesAddsUp | analytics/src/metrics.ts:144-149 | Daily counts over contiguous days add up to the count over the whole stretch |
| Summary.DidsDaily | analytics/src/metrics.ts:135-141 | Each row counts its day, and its running total the DIDs created before that day ends |
| Summary.FirstDay | analytics/src/metrics.ts:130-133 | The first bucket starts no later than any created DID, credential event or verification |
| Summary.SeriesIsConserved | analytics/src/metrics.ts:134-149 | A daily series adds up to its all-time total exactly when nothing is dated after today's bucket |
| Summary.OutcomesPartition | analytics/src/metrics.ts:196-206 | On every stretch of time each verification has exactly one outcome |
| Summary.CountOutcomes | analytics/src/metrics.ts:199-206 | The counters are the numbers of valid, invalid and unknown verifications and sum to all of them |
| Summary.ComputeSummary | analytics/src/metrics.ts:106-272 | Every total and every row is the number of events of its kind, counted event by event in the day of 86400000 ms; the days run from that of the oldest event to today; each of the nine series agrees with its total exactly when none of its timestamps lies after today |
| Batch.CredentialStore.CreateAndPersist | server/src/storage.js:464-487 | Appends the credential unless its id exists or the read or write fails; a failed append throws after the write |
| Batch.CredentialStore.RevokeAndPersist | server/src/storage.js:522-550 | Marks and stamps every record with the id and returns the first, nothing for an unknown id, an exception for a failed read, write or append |
| Batch.CredentialStore.ExecuteOperation | server/src/batch.js:80-120 | New file and status of each kind of operation, for a read, write or append that fails too; verify answers from the first record with the id, revoked before expired |
| Batch.CredentialStore.ExecuteBatch | server/src/batch.js:26-77 | Operation by operation the batch ends as each operation does alone; a failure of an atomic batch rolls back and the rest are skipped; the successes are counted |
| Batch.OperationEnds | server/src/batch.js:80-120 | The file and status of an operation, record by record |
| Batch.StepIsEnded | server/src/batch.js:31-66 | One turn of the loop: the operation's own end, the ids issued so far, and after an abort every record marked by the last written rollback of its id |
| Batch.ShapeAfter | server/src/batch.js:31-66 | One result per operation, in order; an aborted batch is a run of successes, one failure, then only skips |
| Batch.AbortsIff | server/src/batch.js:46-66 | A batch aborts exactly when it is atomic and an operation fails |
| Batch.SkipsTouchNothing | server/src/batch.js:32-41 | Skipped operations leave the file as the rollback left it |
| Batch.UnnamedUnchanged | server/src/batch.js:26-77 | Whatever fails, records that no executed operation named keep their values and order |
| Batch.IssuedAreRevoked | server/src/batch.js:53-64 | With rollbacks written, every credential an aborted batch reported as issued ends up revoked |
| Batch.CompensatedIff | server/src/batch.js:43-64 | With rollbacks written, everything the batch created is revoked exactly when the failing operation is not an issue that had written an unrevoked record |
| Batch.GapNeedsFailedAppend | server/src/batch.js:80-88 | That gap needs an append that failed |

## Left out

- SHA-256 itself, Unicode case folding beyond ASCII hexadecimal, and `updateMerkleTree` in `sdk/src/merkle.ts`.
- SdkMerkle.GenerateMerkleProof: the `index` field of a sibling, which no verifier reads, is not modelled.
- SdkMerkle.VerifyMerkleProof: soundness is stated for the verifier of `sdk/src/credentials.ts` only, because this one starts from the proof's own leaf when there is one.
- Indexer.EventIndexer.PollEvents: `pollTransactions`, `resolveCountries`, countries and the verification list are not modelled; paging tokens are positions in the chain, and `handled < count` stands for an exception part-way through a page.
- RequestQueue.QueueSafety: errors are classified by a parameter, not by searching their text; `maxRetries` is a natural number.
- RequestQueueClass.Queue.Enqueue: the object runs its loop without a call re-entering it; re-entry is a step of the machine.
- Failover.BaseClient.Call: the check for a disposed client and the wording of the wrapped error are not modelled.
- RunConcurrent.Run: a concurrency that is not an integer; calls still running after a rejection are followed to their end.
- RotatingLog.RotatingFileSink.Write: an awaited write is taken to be in the file; file system errors other than a missing file, and writes that are not awaited, are not modelled.
- PdfExport.CredentialToPdf: the default lines of `exportLines` are a parameter; the reader takes object 4 as the content stream.
- XmlExport.XmlRoundTrip: the surrounding XML document and the JSON export are not modelled.
- Billing.CalculateInvoice: custom prices with fractions of a cent, descriptions, and fractional usage are not modelled; the Stripe client is the list of items created.
- ApiKeyStore.ApiKeyService.ValidateKey: names, scopes, tiers and signing secrets, which the operations only carry along, are not modelled.
- ApiKeyStore.ApiKeyService.Load: a store file that is there but cannot be read or parsed is not modelled.
- RateLimiter.Limiter.Cleanup: how a request names its client, and the timer that triggers the cleanup.
- Summary.ComputeSummary: rates, hourly series, top issuers, types, geography and the replay of deactivations and issuers.
- Batch.CredentialStore.CreateAndPersist: the tenant tag of a new record is not modelled.
- Batch.CredentialStore.ExecuteBatch: webhooks and metrics are not modelled; the appends to the audit and event logs are one success or failure per operation.
