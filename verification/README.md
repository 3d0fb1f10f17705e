# DoWhiz service: verified models

Dafny models of the stateful cores of the DoWhiz scheduler service and of its execution grader, with proofs of
what they keep in every run.

| file | subject |
|---|---|
| `Options.dfy` | the optional value the models share |
| `Text.dfy` | `trim`, `lines`, `join` and sets of trimmed lines |
| `Memo.dfy`, `MemoParse.dfy` | the memo format: two parsers and a printer; sections by position |
| `MemoMerge.dfy` | merging a diff into a memo: closed form, hash-order independence, idempotence |
| `MemoConverge.dfy` | what a merge means line by line; convergence of concurrent writers |
| `MemoRaw.dfy` | merging raw text into a memo, section by section; convergence of raw writers |
| `MemoDiff.dfy` | computing a diff; diff-then-merge, three-way merge and when it loses lines |
| `MemoOrder.dfy` | in which order lines come out of diffs and merges |
| `MemoryQueue.dfy`, `MemoryQueueOrder.dfy`, `MemoryQueueWitness.dfy` | the per-key write queue as an interleaving of submitters and workers; first in, first out; exactly which routings are safe |
| `IngestionTable.dfy`, `IngestionRuns.dfy`, `IngestionReplay.dfy`, `IngestionDelivery.dfy`, `IngestionBackoff.dfy`, `IngestionQueue.dfy` | the Postgres ingestion queue: statements, run invariants, rows as the log tells them, delivery guarantees, the backoff promise, the queue object |
| `Mirror.dfy` | the filtered directory mirror on a file system of paths |
| `Matcher.dfy` | the greedy list matcher and its scores |
| `ServiceBus.dfy` the Service Bus backend's table of pending handles and lock renewers, and what each operation achieves |
| `Recovery.dfy` | container recovery that may crash between any two effects |
| `Attachments.dfy`, `Credentials.dfy`, `MongoRetry.dfy` | attachment manifest, credential order, throttled retry |

`dafny verify dfyconfig.toml` checks the project.

## How to read the main results

**Memo.** Text is a sequence of characters. `Lines` follows `str::lines`, stripping a CR before LF. What the merge
does to the lines of a section, and convergence, are proved for every text. That text is a fixed point of printing
and parsing, or of merging twice, is not true of every text: a line that still ends in CR after splitting loses it
on the way (`DoubledCrIsLost`). `PrintParseIdempotentIff` and `ApplyIdempotentIff` give the exact conditions, and
CRLF files meet them. A three-way merge keeps both sides of an edit except in three cases: a new section whose name
is taken, a section the edit only removed lines from, and a diff with a `__raw__` entry, which is applied as text at
the end of the memo in place of all other entries. `EditSurvivesIff` states them exactly. Likewise "diff then apply
covers the edit" is true without a raw entry and not always with one; `EditIsCoveredIff` has the exact condition, in
terms of the section still open at the end of the memo. `WfDiff` describes the section-wise diffs: parser-shaped
section names other than `__raw__`, header-free content, added lines that are single and non-blank;
`MemoDiff.ComputeIsWf` shows that computed diffs without a raw entry have this shape. A diff is a map
and the order in which a hash map yields it is a parameter, so each theorem covers every order. Lines are compared
by their trimmed form, as the code does. With repeated section names, `KeysOf` collects the lines under a name,
and the original's names need not be distinct for the coverage and convergence theorems.

**Write queue.** Steps are: begin, lock and look up (spawning a worker for a new key), register and unlock, send,
dequeue, read, write, signal, return; reads and writes may fail. `taken` and `merged` are history. A stored memo is
a blob per account or a file per directory, while the queue key is the account or the user id, so
`OneKeyPerPlace` (requests for the same memo have the same key) is a hypothesis on the workload. It always holds
between account requests; between user requests it says that a directory belongs to one user id. The hypothesis is
necessary as well as sufficient: `SafeRoutingIff`, with `SharedMemoLosesLine` giving a run for any two requests that
break it.

**Ingestion queue.** Times are microseconds. `mark_failed` reads the attempts in one statement and writes in
another with no transaction around them, so other workers may act in between; the model keeps the two apart. The
intended backoff promise is then false: `LateReportCutsBackoff` gives a run. A failure write `Cuts` when it moves
`available_at` of a row with attempts left to an earlier moment; every run without a cutting write keeps the promise
(`NoCutKeepsBackoff`), and after every cutting write the promise can be broken (`CutBreaksBackoff`). Fresh reports
never cut (`BackoffRespected`). Likewise a finished row can be reopened by a late failure report
(`LateReportReopensFinishedRow`), exactly when it has attempts left (`DoneRowExposedIff`); `ReclaimNeedsRetry` holds
in every run, and `DoneIsTerminal` under the stated worker discipline.

**Recovery.** "At most one send plus the number of crashes" is false when neither the marker nor the
deregistration succeeds (`TwoSendsWithoutCrash`). `OncePlusCrashesIff` says for which outcomes of the outside world
it holds, `AtMostOnceIff` for which a single send is guaranteed, and `SendsBounded` bounds the sends of each history.

## Model

| member | source | states |
|---|---|---|
| `Text.TrimShape` | DoWhiz_service/scheduler_module/src/memory_diff.rs:96 | `trim` is idempotent, leaves no outer whitespace and introduces no character |
| `Text.TrimCuts` | DoWhiz_service/scheduler_module/src/memory_diff.rs:96 | `trim` cuts whitespace off both ends and nothing else |
| `Text.LinesConcat` | DoWhiz_service/scheduler_module/src/memory_diff.rs:90 | the lines of a concatenation are the lines of its parts when the left part ends a line |
| `Text.LinesOfJoin` | DoWhiz_service/scheduler_module/src/memory_diff.rs:94 | `lines` undoes `join("\n")` up to one empty last line, when no line ends in CR |
| `Text.JoinOfLines` | DoWhiz_service/scheduler_module/src/memory_diff.rs:239 | joining the lines of a text plus an empty one gives the text with its final newline ensured, when no line of it ends in CR or CRLF |
| `Text.RejoinLength` | DoWhiz_service/scheduler_module/src/memory_diff.rs:90-94 | splitting a text that ends a line and joining it again shortens it iff some line ends in CR |
| `Text.LineKeysOfTrim` | DoWhiz_service/scheduler_module/src/memory_diff.rs:64 | comparing contents after `trim` never hides a non-blank line: trimming keeps the set of trimmed lines |
| `Text.LineKeysOfJoin` | DoWhiz_service/scheduler_module/src/memory_diff.rs:94 | joining lines keeps their set of trimmed non-blank lines |
| `Memo.ParseSectionsOrdered` | DoWhiz_service/scheduler_module/src/memory_diff.rs:215-243 | the loop computes the ordered section list of the recursive grammar `Parse` |
| `MemoParse.ParseByPosition` | DoWhiz_service/scheduler_module/src/memory_diff.rs:215-243 | parsing by position: one section for each `## ` line with a name, in order, called by the rest of that line and holding the lines up to the next line that starts with `## ` or `# ` |
| `Memo.ParseSections` | DoWhiz_service/scheduler_module/src/memory_diff.rs:85-116 | the hash-map parser is the last-occurrence map of the ordered parse |
| `Memo.LastOccurrenceMeaning` | DoWhiz_service/scheduler_module/src/memory_diff.rs:85-116 | a name is in that map iff some section carries it, and maps to the content of the last such section |
| `Memo.RebuildMemo` | DoWhiz_service/scheduler_module/src/memory_diff.rs:246-261 | the printing loop yields the title `# Memo`, an empty line, and the printed form of each section |
| `Memo.ParseIsWf` | DoWhiz_service/scheduler_module/src/memory_diff.rs:215-243 | sections parsed from any text have trimmed non-empty one-line names and header-free content |
| `Memo.ParseOfPrint` | DoWhiz_service/scheduler_module/src/memory_diff.rs:215-261 | parse after print: the sections come back, each content being what splitting and joining its printed lines gives |
| `Memo.RereadPrints` | DoWhiz_service/scheduler_module/src/memory_diff.rs:215-261 | a printed content reads back as it was printed iff it is blank or no line of it ends in CR; otherwise it prints strictly shorter |
| `Memo.PrintParseIdempotentIff` | DoWhiz_service/scheduler_module/src/memory_diff.rs:215-261 | for any text, printing and parsing a second time changes nothing iff every parsed section is blank or has no line ending in CR |
| `Memo.PrintParseIdempotent` | DoWhiz_service/scheduler_module/src/memory_diff.rs:215-261 | so it changes nothing on every text whose split lines end in no CR, CRLF files included |
| `Memo.DoubledCrIsLost` | DoWhiz_service/scheduler_module/src/memory_diff.rs:215-261 | a witness family: a non-blank section line followed by CR CR LF is changed by the second pass |
| `MemoMerge.AppendMissingLines` | DoWhiz_service/scheduler_module/src/memory_diff.rs:177-187 | the line-by-line append with duplicate check equals the recursive `AddLines` |
| `MemoMerge.AddLinesKeys` | DoWhiz_service/scheduler_module/src/memory_diff.rs:145-157 | appending lines adds exactly their trimmed forms to the set of trimmed lines, losing none |
| `MemoMerge.AddLinesNothingMissing` | DoWhiz_service/scheduler_module/src/memory_diff.rs:148-149 | lines that are all present already leave the content unchanged |
| `MemoMerge.MergeSections` | DoWhiz_service/scheduler_module/src/memory_diff.rs:170-208 | the walk over the hash map equals the fold of single changes in some order of its keys |
| `MemoMerge.ApplyMemoryDiff` | DoWhiz_service/scheduler_module/src/memory_diff.rs:137-212 | empty diff, raw diff and sectioned diff: the result is `Apply` for some order of the hash map |
| `MemoMerge.ApplyClosedForm` | DoWhiz_service/scheduler_module/src/memory_diff.rs:172-208 | the walk in closed form: existing sections merged in place, then the new ones |
| `MemoMerge.OrderOnlyPermutesNewSections` | DoWhiz_service/scheduler_module/src/memory_diff.rs:172-208 | two hash orders agree on all existing sections, names and positions kept, and on the multiset of appended ones |
| `MemoMerge.ChangeKeepsDistinctNames` | DoWhiz_service/scheduler_module/src/memory_diff.rs:172-208 | distinct section names stay distinct |
| `MemoMerge.ApplyReparses` | DoWhiz_service/scheduler_module/src/memory_diff.rs:137-212 | any memo, any well-formed diff: the merged memo re-parses to the merged sections, contents read back from their printed lines |
| `MemoMerge.StableAfterIff` | DoWhiz_service/scheduler_module/src/memory_diff.rs:172-208 | that condition on memo and diff holds iff every merged section comes out of a second merge as it went in, whatever the hash order |
| `MemoMerge.ApplyIdempotentIff` | DoWhiz_service/scheduler_module/src/memory_diff.rs:137-212 | merging a well-formed diff twice equals merging it once, for all hash orders, iff the inputs are stable: each first section the diff names and each new one is replaced or free of line-ending CR after its change (or blank), and so is every other stored section |
| `MemoMerge.ApplyIdempotent` | DoWhiz_service/scheduler_module/src/memory_diff.rs:137-212 | so it does whenever neither the memo nor the diff has a split line ending in CR |
| `MemoMerge.ApplyRawIdempotent` | DoWhiz_service/scheduler_module/src/memory_diff.rs:143-158 | for a raw entry: added lines and replacement are idempotent, a new raw section iff it is empty |
| `MemoConverge.MergeMeaning` | DoWhiz_service/scheduler_module/src/memory_diff.rs:137-261 | any memo, section by section: the trimmed lines after merge, print and re-parse, exactly, for each kind of change |
| `MemoOrder.MergeOrder` | DoWhiz_service/scheduler_module/src/memory_diff.rs:137-261 | the order of the lines of each section after merge, print and re-parse, for each kind of change |
| `MemoConverge.MergeAllKeys` | DoWhiz_service/scheduler_module/src/memory_diff.rs:137-261 | after any sequence of added-lines diffs a section holds its initial lines and everything added, nothing else |
| `MemoConverge.WritersConverge` | DoWhiz_service/scheduler_module/src/memory_diff.rs:137-261 | convergence: replays of the same added-lines diffs in any order, with repetitions, any hash orders, leave the same lines in every section |
| `MemoRaw.AppendReads` | DoWhiz_service/scheduler_module/src/memory_diff.rs:158-165 | text appended to any memo: its lines go, section by section, where they would after the section left open |
| `MemoRaw.RawMeaning` | DoWhiz_service/scheduler_module/src/memory_diff.rs:142-168 | any raw change on any memo: the exact lines of every section and of the text |
| `MemoRaw.PlainRawMeaning` | DoWhiz_service/scheduler_module/src/memory_diff.rs:142-168 | header-free raw changes: added lines not in the text and new raw content go to the section left open and to no other; a replacement leaves no section |
| `MemoOrder.RawOrder` | DoWhiz_service/scheduler_module/src/memory_diff.rs:142-168 | the order of the lines of the text after a raw change |
| `MemoRaw.RawMergeAllKeys` | DoWhiz_service/scheduler_module/src/memory_diff.rs:142-157 | any sequence of raw added-lines diffs: the text has its initial lines and all added ones, and each section exactly those that fall to it |
| `MemoRaw.RawWritersConverge` | DoWhiz_service/scheduler_module/src/memory_diff.rs:142-157 | convergence of replays of raw added-lines diffs in any order with repetitions: same lines in the text, and for header-free lines the same in every section |
| `MemoRaw.MixedMergeKeys` | DoWhiz_service/scheduler_module/src/memory_diff.rs:137-212 | section-wise and raw added-lines diffs mixed in any order: no section loses a line, and each section-wise diff's lines are there |
| `MemoDiff.ComputeMemoryDiff` | DoWhiz_service/scheduler_module/src/memory_diff.rs:28-82 | the loops compute the section-wise diff `Compute`, the raw case included |
| `MemoDiff.DiffMeans` | DoWhiz_service/scheduler_module/src/memory_diff.rs:52-82 | a diff of sectioned memos mentions exactly the sections whose trimmed content is new or changed, as new, added-lines or replaced by what changed |
| `MemoDiff.RawDiffMeans` | DoWhiz_service/scheduler_module/src/memory_diff.rs:35-50 | of memos without sections: one raw entry iff the trimmed texts differ, with the added lines or else the whole text |
| `MemoDiff.MissingKeys` | DoWhiz_service/scheduler_module/src/memory_diff.rs:119-134 | the added lines carry exactly the trimmed lines of the modified text that the original lacks |
| `MemoOrder.MissingPicks` | DoWhiz_service/scheduler_module/src/memory_diff.rs:119-134 | the added lines are picked from the edited text at strictly increasing positions, exactly those of its non-blank lines that the original lacks |
| `MemoOrder.UnseenPicks` | DoWhiz_service/scheduler_module/src/memory_diff.rs:177-187 | the lines a merge appends are the first occurrences of those not in the section, at strictly increasing positions of the diff |
| `MemoOrder.AddLinesInOrder` | DoWhiz_service/scheduler_module/src/memory_diff.rs:145-187 | appending lines keeps all lines in place and puts the unseen ones after them in their order, each once |
| `MemoDiff.ComputeIsWf` | DoWhiz_service/scheduler_module/src/memory_diff.rs:28-82 | a computed diff is well formed iff it has no `__raw__` entry, for all pairs of memos |
| `MemoDiff.NoEditNoDiff` | DoWhiz_service/scheduler_module/src/memory_diff.rs:28-82 | a memo has no diff against itself |
| `MemoDiff.EditMergesIntoNewerMemo` | DoWhiz_service/scheduler_module/src/memory_diff.rs:28-212 | three-way merge of any edit into any newer memo, the exact lines of each section: unchanged or dropped sections untouched, added lines joined in, a new section taken only if its name is free, a reduced one replacing the first of its name; with a raw entry, only the section left open gains lines |
| `MemoDiff.EditSurvivesIff` | DoWhiz_service/scheduler_module/src/memory_diff.rs:28-212 | exactly when the edit's lines and the newer memo's lines survive the merge, for each kind of change and for diffs with a raw entry |
| `MemoDiff.EditSurvivesDistinctIff` | DoWhiz_service/scheduler_module/src/memory_diff.rs:189-196 | distinct names: a reduced section becomes the edit's, and keeps the newer lines iff the edit has them |
| `MemoOrder.EditKeepsOrder` | DoWhiz_service/scheduler_module/src/memory_diff.rs:28-212 | diff then merge keeps the order of the edit: a section that got lines has the newer memo's lines, then the new lines in the order of the edited text |
| `MemoDiff.EditIsCoveredIff` | DoWhiz_service/scheduler_module/src/memory_diff.rs:28-212 | diff then apply, any two memos: each modified section has all its lines afterwards iff the diff has no raw entry, or those lines were there or are raw lines that fall to it; added lines cost no original line |
| `MemoDiff.RawSectionCoveredIff` | DoWhiz_service/scheduler_module/src/memory_diff.rs:28-212 | for the section `__raw__` itself: never covered if new, if reduced iff nothing is left of it, with added lines iff each is there already, or the section is the last open one and the text lacks the line |
| `MemoDiff.RawEditMergesAsText` | DoWhiz_service/scheduler_module/src/memory_diff.rs:35-168 | a raw edit merged into any newer memo is kept in the text: added lines joined to the newer ones, a replacement alone |
| `MemoDiff.RawEditIsCovered` | DoWhiz_service/scheduler_module/src/memory_diff.rs:35-50 | diff then apply for two memos without sections: all lines of the modified text are there |
| `MemoryQueue.OneWorkerPerKeyAlways` | DoWhiz_service/scheduler_module/src/memory_queue.rs:63-104 | in every interleaving at most one worker serves a key |
| `MemoryQueue.StoredStep` | DoWhiz_service/scheduler_module/src/memory_queue.rs:87-152 | each step keeps: every stored memo is the fold of its successful requests, and a worker's read is still current when it writes |
| `MemoryQueue.WritesAreSerial` | DoWhiz_service/scheduler_module/src/memory_queue.rs:48-152 | every run: each memo is the fold of the merge over successful requests in dequeue order; a submit that returned Ok is in it exactly once, a failed one not at all |
| `MemoryQueue.RealTimeOrder` | DoWhiz_service/scheduler_module/src/memory_queue.rs:106-115 | a submit that returned before another began precedes it in dequeue order |
| `MemoryQueueOrder.FirstInFirstOut` | DoWhiz_service/scheduler_module/src/memory_queue.rs:74-104 | every run: of two requests in one channel's queue the one in front is dequeued first |
| `MemoryQueueOrder.SendOrder` | DoWhiz_service/scheduler_module/src/memory_queue.rs:74-109 | every run: of two requests with one key the one sent first is dequeued first, returned or not |
| `MemoryQueueOrder.SendOrderIsMergeOrder` | DoWhiz_service/scheduler_module/src/memory_queue.rs:50-152 | every run: of two successful requests for one memo the one sent first is merged first |
| `MemoryQueueOrder.QueuesAreBounded` | DoWhiz_service/scheduler_module/src/memory_queue.rs:74 | every run: no channel holds more than a hundred requests |
| `MemoryQueueOrder.KeysSeparate` | DoWhiz_service/scheduler_module/src/memory_queue.rs:50-53 | two requests share a queue iff they share the account, or have none and share the user id |
| `MemoryQueue.NoLostWrites` | DoWhiz_service/scheduler_module/src/memory_queue.rs:48-185 | lines submitted by a section-wise added-lines request that returned Ok are in the stored memo, along with all initial lines, raw added-lines requests for the same memo included |
| `MemoryQueue.NoLostRawWrites` | DoWhiz_service/scheduler_module/src/memory_queue.rs:48-185 | the same for memos merged as text: lines of a raw added-lines request that returned Ok and all initial lines are in it |
| `MemoryQueueWitness.SharedMemoLosesLine` | DoWhiz_service/scheduler_module/src/memory_queue.rs:48-152 | any workload and start: if two added-lines requests share a memo under different keys, a run exists in which the first returns Ok and any line of it that the second and the initial memo lack is missing |
| `MemoryQueueWitness.SafeRoutingIff` | DoWhiz_service/scheduler_module/src/memory_queue.rs:48-152 | for any routing: all runs of all diffs are serial, and none loses an acknowledged line, iff requests that share a memo share a queue key |
| `MemoryQueueOrder.OneKeyPerPlaceIff` | DoWhiz_service/scheduler_module/src/memory_queue.rs:50-53 | requests that share a memo share a key iff no directory is used by two user ids without accounts |
| `MemoryQueueWitness.SharedFileLosesAnUpdate` | DoWhiz_service/scheduler_module/src/memory_queue.rs:50-53 | two users of one directory without accounts are such a routing: some submissions under it lose an acknowledged line |
| `IngestionRuns.InvStep` | DoWhiz_service/scheduler_module/src/ingestion_queue.rs:258-472 | every statement keeps rows in step with the log: processing iff locked, attempts count claims, failed means exhausted |
| `IngestionReplay.RowsAreTold` | DoWhiz_service/scheduler_module/src/ingestion_queue.rs:259-471 | every run: a row has the employee, payload, key and time of its one insertion, and the status, lock and `available_at` that the last event about it gives, backoff of five seconds per attempt seen included |
| `IngestionReplay.EligibleIff` | DoWhiz_service/scheduler_module/src/ingestion_queue.rs:310-324 | a row can be claimed iff it has claims left and the last event about it is its insertion, a retry that is due, or a claim whose lease is over |
| `IngestionRuns.LeaseExclusion` | DoWhiz_service/scheduler_module/src/ingestion_queue.rs:304-471 | every run: two consecutive claims of a row have a retry between them or lie more than the lease apart; processing iff `locked_at` is set |
| `IngestionDelivery.OneRowPerKey` | DoWhiz_service/scheduler_module/src/ingestion_queue.rs:259-302 | every run: a dedupe key has at most one row and is reported inserted at most once |
| `IngestionDelivery.AttemptsAreClaims` | DoWhiz_service/scheduler_module/src/ingestion_queue.rs:304-379 | every run: `attempts` counts the row's claims, never beyond the limit; failed rows are exhausted |
| `IngestionDelivery.ExhaustedIsNeverClaimed` | DoWhiz_service/scheduler_module/src/ingestion_queue.rs:319 | a row out of attempts or marked failed is never claimed again |
| `IngestionDelivery.DeliveryBudget` | DoWhiz_service/scheduler_module/src/ingestion_queue.rs:304-379 | claims of any set of existing rows in any continuation equal the drop of their attempts left, and so are bounded by them |
| `IngestionDelivery.ReclaimNeedsRetry` | DoWhiz_service/scheduler_module/src/ingestion_queue.rs:304-471 | every run: a finished row is claimed again only after a retry was recorded for it |
| `IngestionDelivery.DoneRowExposedIff` | DoWhiz_service/scheduler_module/src/ingestion_queue.rs:304-471 | a done row can be claimed again in some continuation iff it has attempts left |
| `IngestionDelivery.DoneIsTerminal` | DoWhiz_service/scheduler_module/src/ingestion_queue.rs:381-398 | runs settled only by the latest claim's holder, once per claim: a finished row is never claimed or settled again |
| `IngestionBackoff.NoCutKeepsBackoff` | DoWhiz_service/scheduler_module/src/ingestion_queue.rs:310-444 | every run in which no failure write moves a claimable row's `available_at` to an earlier moment: no claim before any recorded retry deadline, stale and repeated reports included |
| `IngestionBackoff.CutBreaksBackoff` | DoWhiz_service/scheduler_module/src/ingestion_queue.rs:310-444 | after any such cutting write, waiting and claiming breaks a recorded deadline |
| `IngestionBackoff.WriteBreaksBackoffIff` | DoWhiz_service/scheduler_module/src/ingestion_queue.rs:400-444 | a failure write can lead to a broken deadline, with no further cutting write, iff it cuts |
| `IngestionBackoff.BackoffKeptIffNoCut` | DoWhiz_service/scheduler_module/src/ingestion_queue.rs:304-444 | from any safe state: all continuations respect the backoff of a row iff none contains a cutting write |
| `IngestionBackoff.BackoffRespected` | DoWhiz_service/scheduler_module/src/ingestion_queue.rs:310-444 | in particular every run whose reports are fresh respects the backoff |
| `IngestionQueue.PostgresQueue.constructor` | DoWhiz_service/scheduler_module/src/ingestion_queue.rs:118-172 | an empty, valid queue |
| `IngestionQueue.PostgresQueue.Enqueue` | DoWhiz_service/scheduler_module/src/ingestion_queue.rs:259-302 | insert unless the dedupe key exists, logging key, employee, payload and the present time; clash of ids is an error; other outcomes leave the table alone |
| `IngestionQueue.PostgresQueue.SelectOldest` | DoWhiz_service/scheduler_module/src/ingestion_queue.rs:313-330 | the oldest claimable row, none iff there is none |
| `IngestionQueue.PostgresQueue.ClaimNext` | DoWhiz_service/scheduler_module/src/ingestion_queue.rs:304-379 | of the employee's eligible unlocked rows the one enqueued first is claimed, with the payload it was enqueued with; none iff there is none |
| `IngestionQueue.PostgresQueue.MarkDone` | DoWhiz_service/scheduler_module/src/ingestion_queue.rs:381-398 | sets a row done without checking status or holder; no effect on unknown ids |
| `IngestionQueue.PostgresQueue.ReadAttempts` | DoWhiz_service/scheduler_module/src/ingestion_queue.rs:402-411 | first statement of `mark_failed`: the report holds the row's number of claims |
| `IngestionQueue.PostgresQueue.RecordFailure` | DoWhiz_service/scheduler_module/src/ingestion_queue.rs:413-469 | second statement: give up at the limit, else pending with backoff 5*max(attempts, 1) seconds |
| `IngestionQueue.PostgresQueue.MarkFailed` | DoWhiz_service/scheduler_module/src/ingestion_queue.rs:400-471 | both statements uninterrupted: the logged count is the row's number of claims |
| `IngestionQueue.LateReportReopensFinishedRow` | DoWhiz_service/scheduler_module/src/ingestion_queue.rs:400-471 | a reachable run in which a late failure report reopens a finished row and it is claimed again |
| `IngestionQueue.LateReportCutsBackoff` | DoWhiz_service/scheduler_module/src/ingestion_queue.rs:400-471 | a reachable run in which a stale count cuts a ten-second backoff to five |
| `Mirror.KeptMeansEveryNameSyncs` | DoWhiz_service/scheduler_module/src/secrets_store.rs:115-126 | a path is kept iff no component is the active-session file or ends in `.tmp` |
| `Mirror.NameSyncsMeans` | DoWhiz_service/scheduler_module/src/secrets_store.rs:115-126 | a name is left out iff it is `active_session.json` or ends in `.tmp` |
| `Mirror.FileSystem.DropStale` | DoWhiz_service/scheduler_module/src/secrets_store.rs:159-171 | first loop, exactly: an entry of `dest` without a kept counterpart of the same kind goes with all below it, and every other path keeps its node |
| `Mirror.FileSystem.MirrorEntry` | DoWhiz_service/scheduler_module/src/secrets_store.rs:173-193 | one entry of the second loop mirrored at every depth; nothing else changes |
| `Mirror.FileSystem.MirrorDir` | DoWhiz_service/scheduler_module/src/secrets_store.rs:153-196 | whatever `dest` held, it becomes the kept part of `src` at every depth and every other path is unchanged |
| `Mirror.FileSystem.CreateDirAll` | DoWhiz_service/scheduler_module/src/secrets_store.rs:149 | makes all of a path directories, and fails without effect iff a file is in the way |
| `Mirror.FileSystem.MirrorOptionalDir` | DoWhiz_service/scheduler_module/src/secrets_store.rs:128-151 | the whole sync: succeeds iff no file blocks `dest` and `src` is no file; missing `src` leaves an empty `dest`; failure changes nothing |
| `Mirror.FileSystem.SyncUserToWorkspace` | DoWhiz_service/scheduler_module/src/secrets_store.rs:64-74 | user state mirrored into `.secrets/browserbase` of the workspace, under the same exact success condition |
| `Mirror.FileSystem.SyncWorkspaceToUser` | DoWhiz_service/scheduler_module/src/secrets_store.rs:76-86 | workspace state mirrored back, under the same exact success condition |
| `Mirror.FileSystem.SyncThereAndBack` | DoWhiz_service/scheduler_module/src/secrets_store.rs:64-196 | both syncs in turn: the exact success condition in terms of the first state, and the kept part of the user's tree in both places |
| `Mirror.RoundTrip` | DoWhiz_service/scheduler_module/src/secrets_store.rs:64-196 | user to workspace to user leaves exactly the kept part of the user's tree, and the workspace equal to it |
| `Matcher.DedupeStrings` | evals/oliver_execution/grader.py:38-47 | output is the stripped first value of every non-empty key, in order |
| `Matcher.FindBest` | evals/oliver_execution/grader.py:63-69 | the first position with the highest score, none iff the list is empty |
| `Matcher.MatchOne` | evals/oliver_execution/grader.py:62-80 | one expected value: hit or miss keeps conservation, maximality and the greedy choice |
| `Matcher.MatchLists` | evals/oliver_execution/grader.py:50-95 | both lists conserved; the choice position by position: each expected value in turn takes the first best of the predictions left if it reaches the threshold; matches, missed and unexpected in order; at least half of any one-to-one threshold matching; precision, recall and F1 as shares of the lists |
| `Matcher.MaximalIsHalfOptimal` | evals/oliver_execution/grader.py:62-82 | any one-to-one threshold matching is at most as large as the two used sides of a maximal one together |
| `Matcher.F1ClosedForm` | evals/oliver_execution/grader.py:83-85 | over exact numbers the F1 of precision and recall is 2m/(p+e), 1 when both lists are empty |
| `ServiceBus.InvStep` | DoWhiz_service/scheduler_module/src/service_bus_queue.rs:127-301 | every step keeps each handle in one place with the right number of renewers, one lock at most per message, and messages accounted for |
| `ServiceBus.PeekLockTable` | DoWhiz_service/scheduler_module/src/service_bus_queue.rs:146-301 | every run: pending handles are exactly those published and not settled or drained, each with one live renewer and a message that was enqueued for the claimant's employee, deleted since or not |
| `ServiceBus.NoMessageVanishes` | DoWhiz_service/scheduler_module/src/service_bus_queue.rs:127-232 | from any state, a message is still there or was deleted on behalf of a handle |
| `ServiceBus.DeletedOnlyByDone` | DoWhiz_service/scheduler_module/src/service_bus_queue.rs:146-213 | every run: a message once there is gone iff it was deleted, and then through `mark_done` of a handle that claimed it for the message's own employee |
| `ServiceBus.TakenAtMostOnce` | DoWhiz_service/scheduler_module/src/service_bus_queue.rs:224-232 | a handle taken or drained is never taken again |
| `ServiceBus.SettleEffect` | DoWhiz_service/scheduler_module/src/service_bus_queue.rs:206-222 | a successful `mark_done` with the lock held removes the message, a successful `mark_failed` frees it, a refused or failed settlement changes no message and no lock |
| `ServiceBus.DeliveryRun` | DoWhiz_service/scheduler_module/src/service_bus_queue.rs:146-232 | from any state a free message can be claimed, published, taken and settled: after `mark_done` it is gone in every continuation, after `mark_failed` it can be claimed again |
| `ServiceBus.OthersMessageReturns` | DoWhiz_service/scheduler_module/src/service_bus_queue.rs:167-172 | another employee's message is free again after the unlock iff the unlock succeeded, and else when its lock expires |
| `ServiceBus.FailedSpawnReturns` | DoWhiz_service/scheduler_module/src/service_bus_queue.rs:183-191 | a claim whose renewer cannot be spawned takes no handle, and the message returns in the same way |
| `ServiceBus.EntryAndExit` | DoWhiz_service/scheduler_module/src/service_bus_queue.rs:127-301 | an enqueued message is free for its employee, a lost lock frees its message, draining empties the table and stops every renewer |
| `Recovery.Container.RecoverSingleContainer` | DoWhiz_service/scheduler_module/src/aci_recovery.rs:64-204 | effects of one recovery up to its crash; status success iff the marker was found or propagation returned Ok, else the propagation is blamed |
| `Recovery.MarkedIsNeverSentAgain` | DoWhiz_service/scheduler_module/src/aci_recovery.rs:78-84 | over any sequence of recoveries nothing is sent once the marker is written |
| `Recovery.SendsBounded` | DoWhiz_service/scheduler_module/src/aci_recovery.rs:64-204 | successful sends are at most one plus the recoveries that sent and then neither marked nor deregistered, so at most one plus crashes plus crash-free ones of that kind |
| `Recovery.AtMostOnceIff` | DoWhiz_service/scheduler_module/src/aci_recovery.rs:64-204 | for any set of allowed outcomes: every history sends at most once iff no allowed recovery sends and then neither marks nor deregisters |
| `Recovery.OncePlusCrashesIff` | DoWhiz_service/scheduler_module/src/aci_recovery.rs:64-204 | for any set of allowed outcomes: every history sends at most once plus once per crash iff no allowed recovery runs to its end having sent, but neither marked nor deregistered |
| `Recovery.TwoSendsWithoutCrash` | DoWhiz_service/scheduler_module/src/aci_recovery.rs:147-199 | two sends without any crash, when marker and deregistration both fail |
| `Attachments.ReadSidecars` | DoWhiz_service/scheduler_module/src/past_emails.rs:345-363 | the URL map holds exactly the base names of non-blank sidecars, with the trimmed text of the last sidecar for each |
| `Attachments.BaseMeans` | DoWhiz_service/scheduler_module/src/past_emails.rs:354 | the base of a name is what is left when all its `.azure_url` suffixes are cut |
| `Attachments.HydrateAttachments` | DoWhiz_service/scheduler_module/src/past_emails.rs:319-448 | manifest: first the plain files in directory order, then the other linked names; every field of every entry; names distinct; total, large and copied agree with the entries |
| `Credentials.PrecedesOrder` | DoWhiz_service/scheduler_module/src/notion_store.rs:414-422 | the comparator is asymmetric and transitive, and total between different account/workspace pairs |
| `Credentials.BeforeMeans` | DoWhiz_service/scheduler_module/src/notion_store.rs:419 | strings compare by their first difference, a proper prefix first |
| `Credentials.SortedIsNewestFirst` | DoWhiz_service/scheduler_module/src/notion_store.rs:414-422 | sorted means: latest update first, ties by latest creation, then smaller workspace, then smaller account |
| `Credentials.SelectionIsDeterministic` | DoWhiz_service/scheduler_module/src/notion_store.rs:403-422 | with one credential per pair, any two cursor orders sort to the same sequence, newest update first |
| `Credentials.CollectNewestFirst` | DoWhiz_service/scheduler_module/src/notion_store.rs:403-412 | fails iff a document is bad, else returns all credentials, newest first |
| `MongoRetry.RetryThrottled` | DoWhiz_service/scheduler_module/src/mongo_store.rs:189-222 | returns the first non-throttled result or the last throttle error; calls and total sleep bounded in the retry limit |
| `MongoRetry.SleepOfRetries` | DoWhiz_service/scheduler_module/src/mongo_store.rs:206-217 | the sleep of a series of throttled calls: what the server asks for, each brought into [25, 2000] ms, plus 25 ms more for each further retry |
| `MongoRetry.RetryMongoOperation` | DoWhiz_service/scheduler_module/src/mongo_store.rs:189-222 | at most 10 calls and 19125 ms of sleep |
| `MongoRetry.EnsureIndexCompatible` | DoWhiz_service/scheduler_module/src/mongo_store.rs:99-147 | no call for a cached index, else at most 8 calls and 14700 ms; the cache grows exactly on success |

## Left out

- Diffs with multi-line or header-bearing added entries, such as a quick reply's whole update in one entry: the merge theorems are about well-formed diffs.
- MemoryQueue.NoLostRawWrites: does not follow raw lines in a memo that also gets section-wise diffs, which print sections only, so that text outside them goes; section-wise lines are kept there too (`MemoryQueue.NoLostWrites`).
- Mirror.FileSystem.RemovePath: stands for the library's removal of a file or directory tree; failing half way is not modelled.
- MemoryQueue.WritesAreSerial: a failed write is taken to leave the stored memo unchanged, since partial file writes are not modelled.
- Lock poisoning, closed channels and thread panics in the write queue; the worker loop is taken to run for ever.
- SQL text, connection pools, TLS and typed queries: each statement is modelled by its effect on rows, at one instant of its `now()`.
- The contents of ingestion envelopes, and the case of a payload that no longer decodes after it was claimed.
- Service Bus client caching, latency metrics and undecodable payloads; the broker is modelled by its peek locks only.
- Mirror.FileSystem.MirrorDir: symbolic links, special files, non-UTF-8 names and I/O errors other than a file in the way are not modelled, and source and destination are taken to be disjoint.
- `normalize_text` and `similarity`: parameters of the matcher; rounding of the reported scores to three digits is not modelled.
- Recovery.Container.RecoverSingleContainer: two simultaneous recoveries of one container, and the inside of `propagate_results_to_outbound`, are not modelled.
- Credentials.SortNewestFirst: stands for the library sort; stability is not needed because the comparator is total on the credentials compared.
- Slug and directory-name helpers, environment lookup, `account_store.rs`, regex-driven extractors, HTTP clients, pollers, website and scripts: they would only add easy members or depend on libraries outside the repository.
