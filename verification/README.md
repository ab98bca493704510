# Mail cache, header index, outbox and enrichment queue: a verified model

This project models the stateful core of an IMAP mail assistant and proves what its
documentation and code promise about it: a mail cache that mirrors IMAP folders, an
index built from message headers, a durable webhook outbox, a two-lane enrichment
queue, UID-exact mail operations, a query compiler, a lookalike-domain check and an
mboxrd writer.

SQLite tables are maps and sets, and a transaction is one step. The IMAP server is an
environment: an object that may change in any way the RFCs allow between any two calls,
may fail any call, and answers only what its stated contract allows. Times are integers
or reals handed in by the caller.

| file | what it models |
|---|---|
| `Collections.dfy`, `Folds.dfy` | distinct sequences, sorting as a canonical form, order-independent totals |
| `ImapServer.dfy`, `FolderSync.dfy` | the server contract and the reconcile cycle of one cached folder |
| `CacheTables.dfy` | messages, enrichment queue, vectors and sync state under cascading deletes |
| `Headers.dfy`, `SenderIndex.dfy`, `HeaderScan.dfy` | the header index, sender profiles and the resumable scan |
| `Threads.dfy`, `Replies.dfy` | latest message per thread, reply times |
| `KnowledgeGraph.dfy`, `EdgeEnds.dfy` | graph edges, and their last_seen and valid_to over time |
| `Outbox.dfy`, `Dispatcher.dfy` | delivery state machine, the tables and the dispatcher |
| `EnrichmentQueue.dfy`, `RateLimiter.dfy`, `Pipeline.dfy` | queue rows, token bucket, batch choice and processing |
| `MailOps.dfy` | delete and move by UID |
| `Like.dfy`, `Query.dfy`, `SqlText.dfy` | LIKE patterns, the query compiler, and its SQL text read back |
| `EditDistance.dfy`, `Mboxrd.dfy` | edit distance and lookalike, mboxrd export |

`dafny verify dfyconfig.toml` checks everything.

## Results that do not follow the promise

Each has an input that shows it and the exact condition under which the promise holds.

- A folder with cached rows but no stored watermark is not rebuilt when its UIDVALIDITY
  changes (`FolderSync.AbortedFirstSyncMisfiles`). `FolderSync.ReconciledEpoch` and
  `FolderSync.ReconciledEpochAlways` say exactly when every row belongs to the server's
  UIDVALIDITY; a misfiled row stays until a rebuild or until it leaves the window
  (`FolderSync.MisfiledStays`).
- The 30-day bound on reply gaps is computed in wrapping 64-bit nanoseconds, so a gap of 585
  years is accepted (`Replies.LateReply`). `Replies.AcceptedExactly` gives the gaps for which the
  guard does what it says, and `Replies.HonestExactly` says when the statistics are made of
  reply times alone.
- The recipient loop stops at the first blank, own or repeated address
  (`SenderIndex.OwnerFirstCreditsNobody`); `SenderIndex.AllCredited` says exactly when everyone
  is credited.
- A rescan after a UIDVALIDITY change counts a message without a Message-ID again, because its
  key holds its UID (`HeaderScan.RenumberedCountsTwice`), although the comment at
  internal/intel/store.go:288-289 says that nothing is counted twice.
  `HeaderScan.RenumberedRescan` says exactly when such a rescan adds nothing.
- A filter on a time field takes a number as Unix seconds (docs/query.md:50), but the compiler
  cuts it to a 64-bit integer without a check, so `lt 1.5` misses second 1 and `lt` 10^19 selects
  nothing (`Query.TimesMissed`). `Query.TimesExactly`, `Query.OperatorExactly` and
  `Query.FilterExactly` say exactly which numbers keep their meaning.
- Messages that enter a grown window are meant to be backfill, but with an empty cache they are
  filed as new mail (`FolderSync.EmptyWindowMisfilesLane`); `FolderSync.GrowthLane` and
  `FolderSync.LaneExactly` say exactly when the lane is right.
- A server that must refuse to delete took the COPY before: the message stays, the result names no
  trash folder, and the trash holds a copy (`MailOps.CopyLeftBehind`). `MailOps.Connection.DeleteMessage`
  says that such a server never yields a trash folder.
- A cached copy that was skipped as a duplicate stays out of the enrichment queue when the
  queued copy leaves the cache (`CacheTables.SkippedCopyStaysUnqueued`).
  `CacheTables.UnqueuedExactly` and `CacheTables.QueuedExactlyOnce` say exactly when a cached
  Message-ID is queued.
- `valid_to` of a stale edge may lag behind `last_seen` (`KnowledgeGraph.EndLagsConcretely`);
  `KnowledgeGraph.EndLagsExactly` says exactly when.

## Model

| member | source | states |
|---|---|---|
| FolderSync.SameFlagsIsPermutation | internal/sync/syncer.go:473-483 | the sorted comparison of flag lists accepts exactly the permutations |
| FolderSync.WatermarkStable | internal/db/cache.go:44-54 | whatever the server does, the stored watermark stays sound: a cached row whose flags differ has a mod-sequence above it |
| FolderSync.IncrementalEqualsFull | internal/sync/syncer.go:418-439 | a refresh with CHANGEDSINCE the watermark leaves the same rows as a refetch of all flags |
| FolderSync.RefreshCurrent | internal/sync/syncer.go:426-440 | storing any part of a truthful answer keeps every watermark sound |
| FolderSync.RefreshAgrees | internal/sync/syncer.go:418-440 | once the whole answer is stored, every cached row has the server's flags up to order, and the rows and the changes are those of a full refetch |
| FolderSync.ReconciledMirrors | internal/sync/syncer.go:345-471 | the cache a quiet successful cycle leaves has exactly the window's UIDs, each with a permutation of the server's flags |
| FolderSync.ReconciledIdempotent | internal/sync/syncer.go:345-471 | a second quiet cycle changes nothing and finds no flag to update |
| FolderSync.ReconciledEpoch | internal/sync/syncer.go:359-368 | every row left was fetched under the server's UIDVALIDITY if and only if no row still in the window was cached under another one while there was no watermark |
| FolderSync.ReconciledEpochAlways | internal/sync/syncer.go:359-368 | the same for any cache: every row left is of the server's UIDVALIDITY iff no row the rebuild test lets stay in the window is of another |
| FolderSync.MisfiledStays | internal/sync/syncer.go:359-368 | a row of another UIDVALIDITY that a cycle keeps is kept by the next one too |
| FolderSync.AbortedFirstSyncMisfiles | internal/sync/syncer.go:359-368 | a fetch stored by an aborted first sync, a renumbering, and the next cycle: the old row is kept for the new message |
| FolderSync.GrowthLane | internal/sync/syncer.go:378-385 | a message at or below every cached one is backfill iff some message is cached or the folder is new |
| FolderSync.LaneExactly | internal/sync/syncer.go:378-385 | backfill means known to the server at the last cycle iff an older message has a cached one at or above it |
| FolderSync.EmptyWindowMisfilesLane | internal/sync/syncer.go:378-385 | a synced folder with an empty window: widening the window files the old message as new mail |
| FolderSync.Classify | internal/sync/syncer.go:382-406 | the loops split the UIDs into cached, missing and gone, and find the highest cached UID |
| FolderSync.TakeHighest | internal/sync/syncer.go:443-452 | a batch holds the highest UIDs, all of them when fewer than the batch size remain |
| FolderSync.Syncer.DeleteUIDs | internal/db/cache.go:189-212 | batched deletion: only rows disappear, the count is exact, success removes exactly the given UIDs |
| FolderSync.Syncer.StoreFlags | internal/sync/syncer.go:426-440 | the rows are refreshed by the part of the answer that was handled, and the counter is the number of rows changed |
| FolderSync.Syncer.FetchMissing | internal/sync/syncer.go:442-468 | batch by batch, every missing message still on a quiet server gets a row under the cycle's UIDVALIDITY; the watermark invariant holds at every stop |
| FolderSync.Syncer.RefreshFlags | internal/sync/syncer.go:418-440 | the refresh asks for what changed since the watermark when the server supports it and there is one, else for everything; it keeps the invariant at every stop and equals the full refresh on success |
| FolderSync.Syncer.SyncFolder | internal/sync/syncer.go:345-471 | on every outcome the watermark is sound; a cycle fails only if a call or statement failed, and then leaves the watermark; success stores the UIDVALIDITY and HIGHESTMODSEQ the status told and reports its CONDSTORE; against an unchanged server it leaves exactly the reconciled rows, the server's own mod-sequence as watermark, and New, Removed, FlagsDone, Cached and Rebuilt exact |
| FolderSync.Syncer.Sweep | internal/db/cache.go:324-369 | the selected rows go, and the watermark goes with them if there were any |
| FolderSync.Syncer.Prune | internal/db/cache.go:405-436 | dropping a folder keeps the invariant even when only the first statement succeeds, and drops rows and watermark when none fails |
| FolderSync.Syncer.AnyRun | internal/sync/syncer.go:345-471 | over any run of cycles stopped anywhere, sweeps, prunes and server changes: under the current UIDVALIDITY a flag difference always has a mod-sequence above the watermark |
| CacheTables.InsertKeepsInv | internal/db/cache.go:121-173 | an insert, a replacement included, keeps one row per place, live references and one queued copy per Message-ID |
| CacheTables.RunKeepsInv | internal/db/cache.go:121-436 | so does every sequence of inserts, deletes, sweeps, prunes and vector writes |
| CacheTables.QueuedAtMostOnce | internal/db/cache.go:121-173 | in every reachable state each non-empty Message-ID has at most one queued copy and nothing is orphaned |
| CacheTables.DropLeaves | internal/db/cache.go:189-221 | after a deletion a Message-ID is cached and unqueued iff a copy stays and every queued copy goes |
| CacheTables.StepStrands | internal/db/cache.go:121-436 | after any event, a replacing insert included, it is so iff the event inserts no copy of it and takes every queued copy but not every copy |
| CacheTables.UnqueuedExactly | internal/db/cache.go:121-436 | over any run, iff a copy is cached and some event took the queued copy and left another, with no insert of the Message-ID since |
| CacheTables.QueuedExactlyOnce | internal/db/cache.go:118-173 | a cached Message-ID is queued exactly once iff no event stranded it since its last insert |
| CacheTables.SkippedCopyStaysUnqueued | internal/db/cache.go:121-173 | a concrete run after which a cached message is queued nowhere |
| CacheTables.MessageRepo.InsertMessage | internal/db/cache.go:121-173 | the message replaces exactly what stood at its place, every other row keeps its queue entry and vector, and it is queued in its lane exactly when no copy elsewhere is queued |
| CacheTables.MessageRepo.SweepRows | internal/db/cache.go:324-369 | counts are the selected rows per folder; a dry run changes nothing; otherwise exactly those rows go, and the sync state of exactly the folders that lost one |
| CacheTables.MessageRepo.PruneWhere | internal/db/cache.go:405-436 | success leaves exactly the rows of kept folders; a failure part-way keeps the invariant |
| CacheTables.MessageRepo.CleanOrphans | internal/db/cache.go:371-393 | removes nothing from a state that meets the invariant |
| SenderIndex.RunKeepsInv | internal/intel/store.go:47-119 | after any run of sightings each index key was counted once and every profile is the total of the indexed messages' shares |
| SenderIndex.MessageCountExact | internal/intel/store.go:175-230 | message_count is the number of index rows that point at the sender, after any run |
| SenderIndex.ProfileCounts | internal/intel/store.go:175-230 | after any run each counting column is the number of distinct messages: received from the address, and of those with each list, bulk and auto flag and each DKIM and DMARC verdict, and sent ones that credit it |
| SenderIndex.ProfileDates | internal/intel/store.go:186-216 | first_seen and last_seen are the least and the greatest date of the messages that touch the address |
| Headers.KeyMeaning | internal/intel/store.go:57-63 | two sightings are one message iff they share account and Message-ID, or lack one and are the same copy |
| Headers.RepliesShareRoot | internal/intel/headers.go:50-58 | a reply made as RFC 5322 says has the thread root of the message it answers |
| SenderIndex.IndexIsSeen | internal/intel/store.go:57-78 | the index holds exactly the distinct messages seen |
| SenderIndex.OrderIrrelevant | internal/intel/store.go:41-119 | runs that saw the same messages leave the same index and the same profiles, whatever the order and repetition |
| SenderIndex.AllCredited | internal/intel/store.go:178-200 | the recipient loop credits all recipients if and only if none is blank, own or repeated |
| SenderIndex.OwnerFirstCreditsNobody | internal/intel/store.go:182-184 | an own address in front keeps every later recipient from being counted |
| HeaderScan.ProgressStable | internal/intel/scanner.go:309-322 | the server's changes never make stored progress claim a message that was not applied |
| HeaderScan.BatchProgress | internal/intel/store.go:232-250 | applying an answer moves last_uid to its last UID with everything at or below it indexed; an answer without more to come covers the folder |
| HeaderScan.CountRecipients | internal/intel/store.go:178-200 | the loop with its early return counts exactly the credited recipients |
| HeaderScan.Scanner.SightBatch | internal/intel/store.go:57-117 | the batch loop gives each header to the sender index, its conversation and the graph, as one run of sightings |
| HeaderScan.Scanner.Apply | internal/intel/store.go:44-119 | a batch, in all three sets of tables, and its progress are stored together or not at all |
| HeaderScan.Scanner.Take | internal/intel/scanner.go:315-322 | a new UIDVALIDITY restarts the folder at UID 0, any other answer is applied; the progress of every folder stays sound |
| HeaderScan.Scanner.ScanFolder | internal/intel/scanner.go:298-353 | wherever the scan stops, each folder's messages at or below its stored UID are applied and the tables are those of the sightings made; a finished scan has applied the whole folder; on a folder that holds still, with nothing failing, enough rounds finish it |
| HeaderScan.Scanner.Forget | internal/intel/store.go:252-286 | dropping a folder's progress row is safe |
| HeaderScan.Scanner.AnyHistory | internal/intel/scanner.go:298-353 | any history of scans of any folders, each stopped anywhere, amounts to one list of genuine sightings that gives the sender tables, the conversations and the graph's claims together |
| HeaderScan.HistoryOfAll | internal/intel/store.go:41-119 | a history that reached every message leaves the index, profiles and graph edges of one uninterrupted pass, and every conversation shows the latest message of its sightings |
| HeaderScan.HistoryIsOnePass | internal/intel/scanner.go:298-353 | a history and an uninterrupted pass that both reached every message the mailbox ever held, by its key, leave the same index and the same profiles |
| HeaderScan.RescanAddsNothing | internal/intel/store.go:69-78 | a rescan changes nothing iff the key of each readable header it sees is indexed already |
| HeaderScan.RenumberedRescan | internal/intel/store.go:288-294 | the rescan of an indexed folder under new UIDs changes nothing iff each mail without a Message-ID is indexed under its new UID too |
| HeaderScan.RenumberedCountsTwice | internal/intel/headers.go:127-132 | a received mail without a Message-ID, seen under two UIDs, is counted twice |
| Threads.Correspondents | internal/intel/store.go:136-151 | the loop finds the first address that is not the owner's and whether the owner is addressed |
| Threads.AboveMeaning | internal/intel/store.go:159-161 | later means the lexicographic order of date and direction |
| Threads.RunKeepsInv | internal/intel/store.go:152-165 | after any events the row is a copy of the latest message seen (by date, then outgoing; first seen among equals) and answered is the OR over all that is known of it |
| Threads.ReopensExactly | internal/service/replies.go:594-616 | a dismissed thread is listed again if and only if a strictly later message was seen, never on a rescan |
| Threads.OpenAfterDismissal | internal/service/replies.go:147-160 | over whole runs: after the last dismissal a thread is listed iff a message later than all those before it came |
| Threads.Table.Thread | internal/intel/store.go:127-165 | a scanned header is one event of its own thread's row and touches no other row; incoming list, bulk or automated mail and notes to self change nothing; incoming personal mail always has its row |
| Threads.Table.Dismiss | internal/service/replies.go:598-616 | dismissing is one event of that row; it reports a missing row |
| Threads.Table.RecordAnswered | internal/service/replies.go:551-560 | a live check marks the row answered only while it still shows that message |
| Threads.AnyRun | internal/intel/store.go:121-165 | over any run on the table every row satisfies the latest-message invariant of its own events |
| Replies.AcceptedMeaning | internal/intel/store.go:11-13 | below 292 years a gap is accepted iff it is between 0 and 30 days |
| Replies.AcceptedExactly | internal/intel/store.go:341-343 | for every gap: being accepted means being between 0 and 30 days iff the gap is not one whose nanoseconds wrap to a short or negative duration |
| Replies.HonestExactly | internal/intel/store.go:341-349 | every credited gap is between 0 and 30 days iff no paired reply's gap wraps so |
| Replies.Index.Read | internal/intel/store.go:304-326 | the snapshot holds exactly the unpaired replies to incoming messages with a known sender, with their gaps |
| Replies.Index.Write | internal/intel/store.go:330-354 | exactly the pairs held and not paired meanwhile are marked, counted and credited; every counter stays a total |
| Replies.Index.PairReplies | internal/intel/store.go:299-355 | an undisturbed pass leaves no reply that could be paired, and the counters are those of the delays in the rows |
| Replies.AnyInterleaving | internal/intel/store.go:296-355 | with any number of passes interleaved in any way, each reply is paired at most once, the passes report exactly the paired replies, and count, total and average are the number, the sum and the floored average of the accepted differences between reply and question dates |
| Replies.StatsDependOnRowsOnly | internal/intel/store.go:299-355 | equal rows have equal reply statistics, whichever passes got there |
| Replies.AverageBounds | internal/intel/store.go:346-349 | the average is the floor of total over count, present iff count > 0, never negative, and at most 30 days when no paired gap wraps |
| Replies.OneReply | internal/intel/store.go:299-355 | one question, its reply 0 to 30 days later and one pass: count 1, total and average the difference of the dates; a reply dated before its question counts nothing |
| Replies.LateReply | internal/intel/store.go:341-349 | a run in which a reply 585 years late becomes the average |
| KnowledgeGraph.DomainOf | internal/intel/headers.go:145-150 | the domain is what follows the last @, and empty only without an @ or after a final one |
| KnowledgeGraph.SupportedMeaning | internal/intel/kg.go:106-167 | both ways: a link is written iff the header fields call for it, for each of the five kinds of edge |
| KnowledgeGraph.Participants | internal/intel/kg.go:109-117 | the loop lists each participant other than the owner once |
| KnowledgeGraph.AllPairs | internal/intel/kg.go:145-156 | the nested loops reach every unordered pair of people |
| KnowledgeGraph.Graph.AddEdge | internal/intel/kg.go:75-89 | one piece of evidence goes to one edge; a node gets no edge to itself |
| KnowledgeGraph.Graph.LinkPairs | internal/intel/kg.go:144-157 | every unordered pair gains one piece of evidence, in one direction |
| KnowledgeGraph.Graph.AddMessage | internal/intel/kg.go:106-167 | exactly the edges the message supports gain one piece of evidence, each once |
| KnowledgeGraph.Graph.Sight | internal/intel/store.go:100-116 | only the first copy of a message adds its edges |
| KnowledgeGraph.Graph.MarkStale | internal/intel/kg.go:262-269 | afterwards valid_to is set iff last_seen is before the cutoff, an end already set stays, and it equals last_seen iff it was not set before or did already |
| EdgeEnds.EndExactly | internal/intel/kg.go:262-269 | over any history of an edge valid_to is set iff some mark set it and no later mark found newer evidence |
| EdgeEnds.LagsExactly | internal/intel/kg.go:262-269 | valid_to differs from last_seen iff newer evidence came after the mark that still stands |
| KnowledgeGraph.EndLagsExactly | internal/intel/kg.go:262-269 | the same, said of the tables any run of scans and marks leaves |
| KnowledgeGraph.EndLags | internal/intel/kg.go:264-269 | two messages with a mark after each, all before the cutoff: valid_to stays at the first date, last_seen is the second |
| KnowledgeGraph.EndLagsConcretely | internal/intel/kg.go:264-269 | two such messages |
| KnowledgeGraph.AnyRun | internal/intel/store.go:100-116 | over any run of scans, with the graph on or off, and stale marks, every row is the count, earliest and latest date over the claimed messages that support it, and last_seen and valid_to follow the edge's history |
| KnowledgeGraph.EdgeMeaning | internal/intel/kg.go:72-89 | weight, valid_from, last_seen and confidence are the number, earliest date, latest date and 1 over the distinct supporting messages; no supporter, no edge |
| KnowledgeGraph.OrderIrrelevant | internal/intel/store.go:100-116 | graphs fed the same messages are equal, whatever the order, repetition and rescans |
| KnowledgeGraph.OneEdgePerPair | internal/intel/kg.go:148-151 | two people never have cc_with edges in both directions |
| Outbox.Backoff | internal/webhook/dispatch.go:33-39 | the doubling loop computes min(30 * 2^(n-1), 3600), and 30 below 1 |
| Outbox.FullWait | internal/webhook/dispatch.go:21-39 | the eleven waits add up to 18210 seconds |
| Outbox.RunKeepsInv | internal/db/webhooks.go:193-251 | over any run pending rows have at most 11 attempts, failed ones 12, active webhooks fewer than 100 failures, and each row has waited out its backoffs |
| Outbox.GiveUpTakesHours | internal/webhook/dispatch.go:212-239 | a delivery given up on had 12 attempts, the first at least 18210 seconds earlier |
| Outbox.StepKeepsRow | internal/db/webhooks.go:193-251 | delivered and failed rows never change, and only a prune of a terminal row or the deletion of its webhook removes a row |
| Outbox.NothingLost | internal/db/webhooks.go:116-126 | after any further run an enqueued row is still there, or its webhook was deleted, or it was terminal when pruned |
| Outbox.FailCountMeaning | internal/db/webhooks.go:213-241 | fail_count is the number of failures since the webhook's last success or enabling, under 100 while it is active |
| Dispatcher.TakeLowest | internal/db/webhooks.go:171-180 | the lowest ids in ascending order, all of them when fewer than the limit |
| Dispatcher.AttemptShrinksDue | internal/webhook/dispatch.go:212-239 | an attempt takes its row out of the due set and brings none in |
| Dispatcher.Repo.SetActive | internal/db/webhooks.go:128-141 | is the enable or disable event; enabling resets the count; reports a missing webhook |
| Dispatcher.Repo.Enqueue | internal/db/webhooks.go:144-151 | is the enqueue event, refused for an unknown webhook |
| Dispatcher.Repo.Due | internal/db/webhooks.go:171-180 | returns the first pending rows of active webhooks whose time has come |
| Dispatcher.Repo.RecordDelivered | internal/db/webhooks.go:193-209 | is the successful-attempt event |
| Dispatcher.Repo.RecordFailed | internal/db/webhooks.go:213-241 | writes the retry or the give-up, adds one failure to the webhook, and disables it exactly at the limit, which it reports |
| Dispatcher.Repo.Deliver | internal/webhook/dispatch.go:212-239 | posting and recording an outcome is one attempt event, and the disabled report is right |
| Dispatcher.Repo.RunOnce | internal/webhook/dispatch.go:175-208 | with the clock standing still the pass terminates, is a run of attempts with the endpoints' answers and no row tried twice, counts them, and leaves no pending row whose time has come under an active webhook |
| EnrichmentQueue.AttemptsCapped | internal/enrichment/pipeline.go:364-389 | over any run a row in error had at least max_attempts tries, and attempts never exceed max_attempts plus the interrupted runs |
| EnrichmentQueue.AttemptsAreTries | internal/enrichment/pipeline.go:337-354 | the attempts column is the number of claims since the row was added |
| EnrichmentQueue.RestartRequeues | internal/enrichment/pipeline.go:155-158 | a restart puts every processing row back to pending with its attempts and lane, and touches no other row |
| RateLimiter.Limiter.Take | internal/enrichment/gates.go:191-207 | grants at most what was asked and what the refilled bucket holds, and keeps the bucket in bounds |
| RateLimiter.RunWithin | internal/enrichment/gates.go:179-207 | after every call of a run the bucket is between 0 and perMinute |
| RateLimiter.Budget | internal/enrichment/gates.go:191-207 | grants plus what is left never exceed what the first call found plus the refill since |
| RateLimiter.RateHolds | internal/enrichment/gates.go:179-207 | the grants of calls i..j of any run are at most perMinute * (1 + minutes between them) |
| Pipeline.SelectLane | internal/enrichment/pipeline.go:272-298 | the oldest pending rows of a lane in queue order, all of them when fewer than the limit |
| Pipeline.Worker.RequeueInterrupted | internal/enrichment/pipeline.go:155-158 | startup is the restart event |
| Pipeline.Worker.BackfillAllowed | internal/enrichment/pipeline.go:250-270 | backfill is allowed iff every gate is open, else the first refusal is kept |
| Pipeline.Worker.Finish | internal/enrichment/pipeline.go:364-396 | an outcome is a success or failure event; successes clear the backoff, transient errors extend it, permanent ones leave it |
| Pipeline.BackoffDoubles | internal/enrichment/pipeline.go:378-384 | the backoff starts at 5 seconds and doubles with each failure up to the 17th, within the limit |
| Pipeline.Worker.ProcessGroup | internal/enrichment/pipeline.go:314-335 | whatever order the claimed items finish in, every item ends with one more attempt and the status its outcome calls for, no other row changes, and the result is the number of enriched items |
| Pipeline.Worker.Choose | internal/enrichment/pipeline.go:207-247 | the oldest new mail fills the batch first; backfill gets the oldest rows up to its quota, only when no waiting new mail is left out, and unforced only with all gates open and within the limiter's grant |
| Pipeline.Worker.RunOnce | internal/enrichment/pipeline.go:207-247 | a run is such a choice, new mail finished before backfill is claimed; each row of the batch gets one attempt and the status its outcome calls for, no other row changes, and the result counts the enriched ones of both lanes; nothing runs during a backoff |
| Pipeline.WindowMeaning | internal/enrichment/gates.go:32-44 | the two-branch window test means fewer minutes after the start than the window is long, around midnight too |
| Pipeline.CachedGate.Allow | internal/enrichment/gates.go:167-177 | a verdict less than ttl seconds old is kept, otherwise the gate is asked again |
| MailOps.Connection.DeleteUIDs | internal/service/mail.go:493-511 | on every outcome only the given UIDs are marked or removed; success removes exactly them; without UIDPLUS it refuses when others are marked deleted |
| MailOps.Connection.MoveUIDs | internal/service/mail.go:474-490 | on every outcome the destination gains, content by content, at least the targets that left and at most all targets, no other folder changes and only targets leave; success moves exactly the targets; it fails only if a command fails, the destination is missing or the delete must be refused |
| MailOps.Connection.DeleteMessage | internal/service/mail.go:404-437 | a message deleted without `permanent` stays in its folder or a trash folder gains a copy of it; only it is touched; when no command fails, the first trash folder there is takes it, unless the server must refuse the delete; the trash folder named gained exactly one copy, unless it is the second and the first has it; success without one leaves the message marked deleted |
| MailOps.CopyLeftBehind | internal/service/mail.go:474-511 | a refused delete after the COPY: the move fails, the message stays, the trash holds a copy |
| EditDistance.EditDistance | internal/intel/anomaly.go:186-204 | the two-row in-place loops compute the recursive Levenshtein distance |
| EditDistance.FillRow | internal/intel/anomaly.go:191-199 | one pass turns row i-1 of the table into row i |
| EditDistance.NoFewerEdits | internal/intel/anomaly.go:184-204 | no list of one-character edits that turns one string into the other is shorter than the distance |
| EditDistance.EnoughEdits | internal/intel/anomaly.go:184-204 | some list of exactly that many edits does it |
| EditDistance.Symmetric | internal/intel/anomaly.go:186-204 | the distance is symmetric |
| EditDistance.Triangle | internal/intel/anomaly.go:186-204 | the distance obeys the triangle inequality |
| EditDistance.LengthBound | internal/intel/anomaly.go:165-168 | the distance is never below the difference in length, nor above the longer length |
| EditDistance.ConfusableTable | internal/intel/anomaly.go:174-176 | the replacement table in either case, and lower-casing of all else |
| EditDistance.FoldsApart | internal/intel/anomaly.go:174-176 | a text folds piece by piece wherever no pair is cut |
| EditDistance.Lookalike | internal/intel/anomaly.go:151-172 | returns the first known domain imitated, as if the length test were not there |
| Like.EscapedLiteral | internal/query/query.go:475-477 | an escaped string in front of a pattern matches itself, up to ASCII case, and nothing else |
| Like.FoldExactly | internal/query/query.go:398-410 | characters match as equal iff they are, or are the two cases of one ASCII letter |
| Like.PrefixMeaning | internal/query/query.go:398-410 | the prefix pattern matches exactly the texts that start with the value |
| Like.ContainsMeaning | internal/query/query.go:398-410 | the contains pattern matches exactly the texts in which the value occurs |
| Like.UnescapeEscape | internal/query/query.go:475-477 | escaping can be undone |
| Like.EscapeInjective | internal/query/query.go:475-477 | escaping is injective |
| Query.BoundMeaning | internal/query/query.go:366-421 | a compiled condition bound to its own arguments selects exactly the rows its filter asks for, with the values as the compiler converts them |
| Query.FilterMeaning | internal/query/query.go:366-421 | and exactly those its filter asks for with the values as given, if every number on a time field is whole and fits 64 bits |
| Query.TimesExactly | internal/query/query.go:448-452 | int64(n) compares with every stored integer as n does iff n is whole and fits 64 bits |
| Query.OperatorExactly | internal/query/query.go:448-452 | the same for each comparison operator: eq and ne need a whole number, lt and gte one that is whole or negative, lte and gt one that is whole or between 0 and 2^63 |
| Query.FilterExactly | internal/query/query.go:366-421 | a compiled filter selects, of all stored integers, exactly those it asks for iff its numbers on a time field keep their meaning: by operator, or, in a list, because another value denotes what each becomes |
| Query.TimesMissed | internal/query/query.go:448-452 | before 1.5 misses the stored second 1; before 10^19 selects no stored second |
| Query.WhereMeaning | internal/query/query.go:267-279 | the conjunction, arguments handed out left to right, selects exactly the rows that satisfy every filter, if every number on a time field is whole and fits 64 bits |
| Query.BuildColumns | internal/query/query.go:204-265 | the column loop accepts and rejects as specified, duplicate names included |
| Query.BuildWhere | internal/query/query.go:267-279 | the filter loop collects conditions and arguments in step and stops at the first error |
| Query.BuildOrder | internal/query/query.go:281-293 | the order loop finds each name's position or rejects it |
| Query.Compile | internal/query/query.go:198-321 | the compiler computes the specified statement, arguments and errors, in the specified order of checks |
| Query.CompileMeaning | internal/query/query.go:198-321 | the accepted statement's WHERE clause with the leading arguments means the request's filters with the values as converted, and as given if every number on a time field is whole and fits 64 bits; the last two arguments are limit + 1 and offset |
| Query.ValuesNeverInText | internal/query/query.go:198-321 | accepted requests that differ only in values have identical SQL text |
| Query.OrderMeaning | internal/query/query.go:281-293 | each ORDER BY position denotes the named column and no other, with the direction asked for |
| Query.SelectMeaning | internal/query/query.go:245-265 | without grouping the columns are the fields asked for, or the default ones, in order |
| Query.GroupMeaning | internal/query/query.go:204-244 | a grouped statement selects and groups by the groups asked for, and has one more column per aggregate, or the count |
| Query.AggregateMeaning | internal/query/query.go:227-243 | the aggregates follow the groups in the order asked for |
| Query.DefaultsMeaning | internal/query/query.go:246-252 | the default columns are the view's default fields |
| Query.AcceptedLimits | internal/query/query.go:198-304 | an accepted request has a known view, at most 32 filters, no negative offset, and a limit of 100 by default and 1000 at most |
| Query.AcceptedFilter | internal/query/query.go:366-421 | an accepted filter has a known field, 1 to 500 values in a list, a non-empty text to search a text field for, and only eq or ne on a boolean |
| SqlText.CondTextMeaning | internal/query/query.go:366-421 | the text of a condition, read back by SQL's own symbols, holds of a row iff the condition does |
| SqlText.AggregateReads | internal/query/query.go:323-363 | the text of an aggregate, read back, calls the function asked for on the field asked for |
| SqlText.StatementWhere | internal/query/query.go:306-312 | the WHERE clause read back from the whole text is the statement's conditions |
| SqlText.StatementOrder | internal/query/query.go:313-319 | the ORDER BY clause read back is the statement's positions and directions |
| SqlText.StatementLimit | internal/query/query.go:319-320 | the text ends in LIMIT ? OFFSET ? |
| SqlText.TextMeaning | internal/query/query.go:306-321 | the text selects a row iff the statement's clauses do |
| SqlText.CompiledTextMeaning | internal/query/query.go:198-321 | the SQL text of an accepted request, read back and bound to its arguments, selects exactly the rows that satisfy the filters |
| SqlText.CompiledTextOrder | internal/query/query.go:281-319 | the text sorts by the columns and directions asked for |
| Query.OnePlaceholderPerArgument | internal/query/query.go:306-321 | the SQL text has exactly one placeholder per argument |
| Query.PlaceholdersBound | internal/query/query.go:267-321 | counted from the left, the placeholders in the text of a filter's condition are exactly those bound to the arguments that filter compiles to |
| Query.IntegersExactly | internal/query/query.go:431-434 | a number is accepted for an integer field iff it is whole and fits 64 bits, and it keeps its value |
| Query.Serve | internal/service/query.go:54-76 | the rows are the first Limit after Offset, and Truncated holds iff more exist |
| Query.WindowMeaning | internal/service/query.go:54-76 | the window is the rows from the offset on, limit of them or as many as there are |
| Mboxrd.Buffer.WriteMboxrd | internal/service/export.go:256-280 | appends the separator line, the quoted lines with a final newline ensured, and a blank line |
| Mboxrd.Buffer.WriteAll | internal/service/export.go:127-132 | the export is the concatenation of the entries in order |
| Mboxrd.FinalNewline | internal/service/export.go:256-280 | adding a newline after the quoted text is quoting the text with its newline |
| Mboxrd.FromLineMeaning | internal/service/export.go:254-256 | a line is quoted iff it is any number of '>' and then "From " |
| Mboxrd.CrlfBecomesLf | internal/service/export.go:265-265 | wherever a CRLF stands it becomes LF and the text around it is converted by itself |
| Mboxrd.NoCrlfStays | internal/service/export.go:265-265 | a text without CRLF stays as it is |
| Mboxrd.SeparatorReads | internal/service/export.go:264-264 | the separator line names the sender and the date, in this order |
| Mboxrd.RoundTrip | internal/service/export.go:256-280 | reading the export back gives every message with LF line ends and a final newline, and it has one separator line per message |

## Left out

- Everything over the network or in libraries: IMAP, SMTP, HTTP, model and OAuth clients, SQLite itself, encryption, migration, MIME and header decoding.
- REST and MCP handlers, CLI, configuration, logging, events published on the bus: plumbing with easy properties.
- Trust gates, sender holds, screening, learned rules, unsubscribe, digests, role assignment, embeddings and semantic search: easier claims, or floating point without a bound to prove.
- Folder sync covers one folder (rows of different folders are independent), with cycles and sweeps of that folder one after the other; a manual sync overlapping the loop is not modelled. A cached row is its flags, lane and UIDVALIDITY; bodies and headers are not modelled. Server answers are sets and maps, one entry per UID in any order. The stored 64-bit mod-sequence is a natural number.
- FolderSync.Syncer.SyncFolder: the claims about the resulting rows are for a server unchanged during the cycle; for a server that changes meanwhile only the invariant is stated, which is what later cycles rely on.
- Header scan: message hashes are modelled by the keys themselves, so hash collisions are not. One scanner of one account runs at a time; dismissals and stale marks are not part of its histories (the runs of `Threads` and `KnowledgeGraph` cover them); the owner's addresses are fixed, and copies of a message agree on date, direction, flags and recipients where a result needs it (it says so). Display names, locating a message's folder and the anomaly checks are omitted.
- HeaderScan.Scanner.ScanFolder: the number of rounds is a parameter that stands for cancellation, so termination of an uncancelled scan is not claimed.
- Threads: subject, message reference, folder and UID of the row follow the last copy written and are not modelled.
- Replies.AverageBounds: the 30-day bound on the average goes one way, from no paired gap wrapping; enough honest replies can dilute a wrapped one below 30 days. The gaps themselves have the exact condition (`Replies.HonestExactly`). Dates whose difference leaves 64 bits are not modelled.
- Knowledge graph: edges from tags and from a model (other predicates, confidence 0.6) and edge properties are omitted.
- Webhooks: one dispatcher; the enqueuer's subscriber cache, signing and posting are omitted. Dispatcher.Repo.RunOnce assumes a clock that stands still and repository calls that succeed.
- Enrichment: status updates succeed, and goroutines of a group are modelled as claims and completions in any order; rows deleted from the cache while claimed are not modelled.
- RateLimiter.Limiter.Take: tokens and times are reals, so floating-point rounding is not modelled.
- Mail operations: no other client is active, and the destination is another folder than the selected one, so deleting from the trash folder itself without `permanent` is not modelled.
- MailOps.Connection.DeleteMessage: the trash folder named in the result may be the second one although a lost reply hid that the message reached the first; the contract says only that the named folder exists.
- LIKE: patterns and texts hold no NUL character, where SQLite stops, and patterns are not too long for SQLite.
- Query.CompileMeaning: for several filters together the guard on numbers goes one way, since one filter can hide the rows another gets wrong; each filter has its exact condition (`Query.FilterExactly`, for columns that store integers).
- SqlText: the reader knows the shapes this compiler writes, not SQL; the views' fragments hold none of the clause keywords as a word, no expression ends in the word NOT or starts with DISTINCT, as holds of the package's views. The GROUP BY list is stated on clauses only.
- Query: the views are a parameter (their expressions contain no placeholder), SQLite's comparisons and text conversion are abstract, time parsing is a parameter, numbers outside 64 bits convert as on amd64 (other processors saturate), and the meaning of grouping and aggregates and the rendering of result values are omitted.
- EditDistance.Lookalike: lower-casing is modelled for ASCII letters only.
- Mboxrd: the date is given as text, and senders and dates contain no newline where the round trip is claimed.
