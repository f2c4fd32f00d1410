# Coeus verification

A Dafny 4.11 model of the Coeus exam-question service, with proofs about the parts of it that hold state:

- **The job queue and its workers** (`Jobs.dfy`, `QueueRuns.dfy`, `JobRun.dfy`, `Retry.dfy`). The jobs
  table is an object whose methods are the SQL statements. `QueueRuns` is a transition system over it: any
  number of workers claim, complete, fail or abandon jobs while the two reaper statements and new uploads
  interleave freely. A statement carries no fencing token, so a worker whose job was taken away may still
  complete or fail it. `JobRun` is `Pipeline.Run` from the extraction's verdict to the last statement.
- **The canonical question store** (`Questions.dfy`, `Repository.dfy`, `ManualEntry.dfy`, `Ownership.dfy`).
  Sessions, images, questions and links as tables; `QuestionRepo` has the repository's statements and
  transactions as methods, and `Questions` has the meaning of each as a function together with the invariants
  every writer keeps. `ManualEntry` is the expert's create. `Ownership` puts store and jobs together and derives
  what the invariants ask of their writers from where the written values come from.
- **The dedup loop** (`Extraction.dfy`, `Dedup.dfy`, `Pipeline.dfy`, `Restart.dfy`, `Interference.dfy`). `Dedup` proves crash-restart
  convergence for the loop as a machine over hashes, `Pipeline` proves that the loop over the repository does
  what the machine does, and `Restart` executes the repository one statement at a time, kills it at arbitrary
  statements and carries the convergence over to the tables. All three are about a loop nobody else writes
  beside, with the same extraction and embedding results in every run. `Interference` puts arbitrary writes of
  others, other loops included, between the loop's statements.
- **Import** (`ImportRows.dfy`, `Importer.dfy`, `Upserts.dfy`, `ImportRuns.dfy`, `Embedder.dfy`). The row loop,
  the chunked embedding and the upserts refine a last-wins map.
- **Accounts** (`Accounts.dfy`). Token revocation over whole runs and the last-active-admin guard.
- **Text and labels** (`Normalize.dfy`, `Search.dfy`, `JsonSearch.dfy`, `ModerationSearch.dfy`, `Labels.dfy`,
  `Drafts.dfy`). Normal forms, search patterns and answer ids, each against an independent decoder or definition.

Operations are given as functions of the old state, and what the functions compute is stated again without them,
column by column, where an operation is described (`Extraction.CreatedFrom`, `Extraction.Settled`,
`QueueRuns.StepExact`, `ImportRows.ReadsAs`, `ImportRuns.EndsAs`, `Repository.EditedBy`, `JobRun.Reported`).

One statement, or one transaction, is one atomic step. AI services, clocks, the digest and the vector distance
are parameters. A run is a sequence of events; theorems over runs hold for every sequence of enabled events.

Where the code does less than its comments say, the model follows the code:

- The error placeholder of a failed extraction carries an empty `choice_labeling`, which the column's CHECK
  (`internal/storage/postgres/migrations/0002_core.sql:35`) refuses: the placeholder is never stored
  (`Pipeline.HandleExtractionFailure`). `Pipeline.PlaceholderLinkedIff` says exactly when it would be stored
  and linked; a crash between its two statements would still leave it unlinked for good.
- `question_import.go:18-20` calls the kept vector valid because equal hashes mean equal texts. Equal hashes
  only mean equal normal forms: `ImportRuns.KeptVectorTrueIff` is the exact condition and
  `ImportRuns.KeptVectorGoesStale` an input that breaks it.
- The report equation of `report.go:13-15` needs a term for rows skipped by cancellation (`Importer.Import`).
- The lease of a job holds exactly as long as the reaper never selects a row whose worker is still running
  (`QueueRuns.LeaseExact`); `QueueRuns.SlowWorkerLosesLease` is a run that loses it.
- The extraction ids of lettered choices agree with the ids shown later for the first 26 choices only
  (`Labels.ExtractionLabelsAgree`, `Labels.DistinctChoicesAgree`).
- From attempt 56 on the backoff shift overflows to no wait at all (`Retry.BackoffExact`).
- The last-active-admin guard holds for serial transactions. Transactions that have all counted before any of
  them writes leave an admin exactly when more admins were counted than are taken (`Accounts.OverlapKeepsAdminIff`,
  `Accounts.OverlapBound`), and however many admins there are, that many can pass the guard at once
  (`Accounts.GuardIsSerialOnly`).
- Two workers that extract the same new question at the same time do not both succeed: the create of the second
  violates the unique hash, its job is failed, and a failed job is not run again. `Interference.StopsIff` says
  exactly when a loop is stopped, `Interference.SecondCreateLoses` is the race, and `Interference.EndsCovered`
  says that a loop that is not stopped has linked every question.
- The moderation search looks into the JSON text of choices and answers. `JsonSearch.SearchesElementsIff` says for
  exactly which terms that is searching the choices and answers: those without quotes, with no backslash but one
  in front of something, and no piece of the notation between the strings. A choice with a quote in it is not
  found by its own text (`JsonSearch.QuotedTermMisses`).
- A response of the embedding service with a repeated index is accepted and leaves some text without a vector
  (`Embedder.EverySlotFilledIff`).

## Model

| member | source | states |
|---|---|---|
| Jobs.ClaimableIff | internal/storage/postgres/job_queue.go:50-56 | the claim's subquery finds an oldest pending row exactly when some row is pending |
| Jobs.JobQueue.Enqueue | internal/storage/postgres/job_queue.go:25-38 | adds one pending row with no attempts under a new id and changes no other row |
| Jobs.JobQueue.Claim | internal/storage/postgres/job_queue.go:40-75 | nothing is claimed exactly when nothing is pending; otherwise an oldest pending row becomes processing with one more attempt, and no other row changes |
| Jobs.JobQueue.Complete | internal/storage/postgres/job_queue.go:77-86 | a processing row becomes done, with its finish time and its last error as it was; any other row is left alone |
| Jobs.JobQueue.Fail | internal/storage/postgres/job_queue.go:88-97 | a processing row becomes failed, with its finish time and the message; any other row is left alone |
| Jobs.JobQueue.ReaperReclaim | internal/storage/postgres/job_queue.go:99-131 | refuses max < 1; otherwise fails stale exhausted rows, then resets stale rows with attempts left, and reports how many rows each statement changed |
| Jobs.JobQueue.ReapExhausted | internal/storage/postgres/job_queue.go:106-116 | fails exactly the stale processing rows that are out of attempts and counts them |
| Jobs.JobQueue.ReapRetry | internal/storage/postgres/job_queue.go:118-128 | resets exactly the stale processing rows with attempts left and counts them |
| Jobs.JobQueue.FinishRun | internal/pipeline/pipeline.go:74-97 | success completes the job, an error or a lost completion issues Fail with its message unless the context is cancelled, a panic always does, and a Fail that does not land changes nothing; the result is nil only when the completion was confirmed |
| QueueRuns.StepKeepsRow | internal/storage/postgres/job_queue.go:25-131 | no event deletes a job, moves it back, or breaks: pending means attempts < max, otherwise 1 ≤ attempts ≤ max, started_at is null exactly when pending, finished_at is set exactly when done or failed; done and failed rows never change |
| QueueRuns.StepKeepsInv | internal/storage/postgres/job_queue.go:25-131 | the invariant over rows and runs is kept by every event, late Complete and Fail included |
| QueueRuns.RunKeepsInv | internal/pipeline/worker.go:57-82 | the invariant holds after every run of workers and reapers, and no row ever moves back |
| QueueRuns.StepExact | internal/storage/postgres/job_queue.go:40-131 | a row becomes done exactly at a Complete of a run on it while it is processing, failed exactly at such a Fail or at the reaper statement when it is overdue and exhausted, processing exactly at its claim, pending again exactly at the reaper statement when it is overdue with attempts left; last_error is set by Fail only, finished_at when a row becomes done or failed, started_at and attempts by the claim |
| QueueRuns.NewRowExact | internal/storage/postgres/job_queue.go:25-38 | only an upload adds a row: pending, without attempts, dated now |
| QueueRuns.RunExact | internal/pipeline/worker.go:203-206 | a claim starts a run under the new count, Complete and Fail settle it, the worker leaves it |
| QueueRuns.FinishedBy | internal/storage/postgres/job_queue.go:77-116 | over every run, a job that is done at the end was completed, and one that failed was failed with its last error or reaped, at an event at which it was processing |
| QueueRuns.StatusChangeDropsMeasure | internal/storage/postgres/job_queue.go:40-131 | a job's measure drops on every change of its status and is otherwise unchanged |
| QueueRuns.JobLifeIsBounded | internal/storage/postgres/job_queue.go:40-131 | over any run a job changes status at most 2·max times after it was enqueued |
| QueueRuns.BoundIsReached | internal/storage/postgres/job_queue.go:40-131 | a legal run of claims and reclaims reaches that bound exactly |
| QueueRuns.AtMostOneLiveRunPerJob | internal/pipeline/worker.go:203-206 | while leases hold, two workers still running never run the same job |
| QueueRuns.LeaseStepExact | internal/storage/postgres/job_queue.go:106-128 | an event keeps every lease exactly when it is not a reaper statement that selects a row whose worker is still running |
| QueueRuns.LeaseExact | internal/storage/postgres/job_queue.go:40-131 | over every run, every running worker's row stays processing with that worker's claim number exactly when the reaper never selects such a row |
| QueueRuns.PromptWorkersKeepLeases | internal/pipeline/worker.go:108-137 | when workers past the stale threshold have stopped before each reaper statement, leases hold at every state |
| QueueRuns.SlowWorkerLosesLease | internal/storage/postgres/job_queue.go:118-128 | otherwise a late Complete can finish a row that a second worker is still working on |
| QueueRuns.WaitingStep | internal/storage/postgres/job_queue.go:47-56 | while a job waits, a claim of another job pays one unit of the older unfinished jobs' remaining attempts, and nothing adds to them |
| QueueRuns.BoundedWaiting | internal/storage/postgres/job_queue.go:47-56 | while a job waits, at most the sum of max − attempts over the older unfinished jobs other claims succeed, for every interleaving with later arrivals |
| QueueRuns.WaitBoundIsReached | internal/storage/postgres/job_queue.go:47-56 | a legal run makes a job wait for exactly the attempts an older one has left |
| QueueRuns.ClaimsCounted | internal/storage/postgres/job_queue.go:47-56 | the count of claims is the number of positions of the run that hold one |
| Retry.ExtractWithRetries | internal/pipeline/pipeline.go:255-296 | makes at most max calls; transport errors, unreadable images and empty extractions are repeated and nothing else is; the result is the outcome of the first attempt not worth repeating, or of the last allowed; a cancelled loop has only such attempts behind it |
| Retry.DecidesOnce | internal/pipeline/pipeline.go:255-296 | at most one attempt decides, so the result is determined |
| Retry.SomeAttemptDecides | internal/pipeline/pipeline.go:255-296 | an uncancelled loop always has a deciding attempt |
| Retry.BackoffExact | internal/pipeline/pipeline.go:38-45 | under 64-bit wrap-around the wait's center is min(2^(attempt−1), 8) seconds exactly for attempts up to 55, and zero after that |
| Retry.IdealSteps | internal/pipeline/pipeline.go:35-37 | that center is one, two, four and then eight seconds |
| Retry.BackoffBounds | internal/pipeline/pipeline.go:46-47 | up to attempt 55 the jittered wait, computed in real numbers, lies in [0.8c, 1.2c) |
| Questions.LabelingOf | internal/storage/postgres/migrations/0002_core.sql:35 | exactly the texts letter and number are labelings |
| Questions.ApplyKeepsRows | internal/storage/postgres/question_repo.go:278-287 | every writer keeps: verified_at is set exactly on verified rows, verified_by only on them, and hashes are unique, given new rows with consistent fields, which Ownership.WriteIsEnabled derives |
| Questions.ApplyKeepsLinks | internal/storage/postgres/question_repo.go:63-73 | every writer keeps: every link's session, image and question exist and the image belongs to the link's session, given a writer that carries the image's session, which Ownership.WriteIsEnabled derives |
| Questions.WritersKeepInv | internal/storage/postgres/question_import.go:39-77 | both hold after any run of such writes: uploads, creates, links, verifications, expert updates, imports, deletions and user removals |
| Questions.CleanupExact | internal/storage/postgres/question_repo.go:316-364 | an expert update clears the bytes of precisely the linked images whose questions are all verified afterwards and changes no other image; moving a question to moderation or error clears nothing |
| Questions.BytesVanishOnlyWhenVerified | internal/storage/postgres/question_repo.go:326-364 | of all writers only an expert update of a linked question makes original bytes vanish, and then every linked question is verified |
| Questions.BytesVanishOverRuns | internal/storage/postgres/question_repo.go:326-364 | in every run that ends without an image's original bytes there is such an update |
| Questions.RemoveUserExact | internal/storage/postgres/migrations/0006_user_management.sql:10-14 | deleting a user deletes the user's sessions, their images and links, takes the name off the questions the user verified, and changes nothing else |
| Questions.UploadsExact | internal/storage/postgres/image_repo.go:24-36 | a session, an upload and an enhancement add exactly what they are given and change nothing else |
| ManualEntry.ManualRow | internal/httpapi/handlers/questions.go:283-356 | a hand-written question is stored verified by its author, well-formed, with the normal form and hash of its own text, a confidence the column holds and the manual-entry tag |
| ManualEntry.Create | internal/httpapi/handlers/questions.go:263-372 | refuses a malformed request, reports the existing id for a known hash, and otherwise inserts a row that holds the request column by column; a refusal changes nothing |
| Ownership.WriteIsEnabled | internal/httpapi/handlers/images.go:75-82 | every write of the system meets its writer's hypotheses: rows come from the pipeline's, the importer's or the expert's builder, and a worker links with the session its job's image was uploaded to |
| Ownership.StepKeepsOwned | internal/httpapi/handlers/images.go:75-82 | upload, enqueue, every queue statement, every write and the deletion of a user keep the store's invariant, and every job, in the table or claimed, carries its image's session |
| Ownership.RunKeepsOwned | internal/httpapi/handlers/images.go:75-82 | both hold after every run, with nothing assumed about the sessions and verification fields written |
| Ownership.JobsExact | internal/httpapi/handlers/images.go:75-88 | a request enqueues its own image for its own session if both are still there, and deleting a user deletes exactly the jobs of that user's sessions and images |
| Ownership.WritesExact | internal/pipeline/pipeline.go:198-215 | a worker links within its job, and the rows written hold what the extraction or the request says |
| Ownership.JobOkIff | internal/pipeline/pipeline.go:102-111 | a claimed job's session and image exist and belong together exactly as long as the image has not been deleted |
| Repository.QuestionRepo.Create | internal/storage/postgres/question_repo.go:27-61 | refuses a labeling the column does not admit, then a taken hash; otherwise inserts the row with its tag set under a new id |
| Repository.QuestionRepo.LinkTags | internal/storage/postgres/question_repo.go:295-303 | inserting the tags one by one leaves the row with exactly the set of them |
| Repository.QuestionRepo.LinkToSession | internal/storage/postgres/question_repo.go:63-73 | adds the link with its number and confidence unless it exists, fails exactly on a missing session, image or question |
| Repository.QuestionRepo.FindExact | internal/storage/postgres/question_repo.go:87-97 | the row with the hash, if there is one |
| Repository.QuestionRepo.FindSemantic | internal/storage/postgres/question_repo.go:99-116 | a nearest embedded row within the threshold, none exactly when no row is within it |
| Repository.QuestionRepo.UpdateFromVerification | internal/storage/postgres/question_repo.go:118-131 | overwrites answers, confidence and explanation of the row whatever its status; fails exactly on a missing row or a confidence the column cannot hold |
| Repository.QuestionRepo.UpdateByExpert | internal/storage/postgres/question_repo.go:254-314 | replaces answers, choices, explanation, confidence, status and tags, the type only when one is given, sets or clears the verification fields by status, keeps everything else, and cleans the images; fails and changes nothing exactly on a missing row or a confidence the column cannot hold |
| Repository.QuestionRepo.CleanupImageBytes | internal/storage/postgres/question_repo.go:326-364 | the loop over linked images clears exactly those without an unresolved question |
| Repository.QuestionRepo.CountUnresolvedForImage | internal/storage/postgres/question_repo.go:366-377 | zero exactly when no question linked to the image is in moderation or error |
| Repository.QuestionRepo.UpsertFromImport | internal/storage/postgres/question_import.go:22-77 | inserts under a new id or merges into the row of the same hash, with the tags replaced; created exactly when the hash was free |
| Repository.QuestionRepo.Delete | internal/storage/postgres/question_repo.go:379-397 | deletes the question and its links unless it is missing, or linked and not in error |
| Dedup.FindsIff | internal/pipeline/pipeline.go:161-195 | an item finds a row exactly when its hash is stored or some stored vector is within the threshold |
| Dedup.MachineRefinesRun | internal/pipeline/pipeline.go:154-219 | the loop at statement level, left alone, ends in the result of processing item after item |
| Dedup.ReplayRows | internal/pipeline/pipeline.go:154-219 | running over the rows of an interrupted run creates exactly the rows that were still missing |
| Dedup.CutOffInterrupted | internal/pipeline/pipeline.go:154-219 | cutting a run off after any number of statements leaves an interrupted history again |
| Dedup.FullRunRestores | internal/pipeline/pipeline.go:154-219 | one full run over an interrupted history ends in the uninterrupted result |
| Dedup.Convergence | internal/pipeline/pipeline.go:154-219 | with no other writer and fixed extraction and embedding results, any number of runs cut off at arbitrary statements and then one full run leave the same questions by hash, with the same number, text, normal form, choices, labeling, type, vector and status, and the same links as one uninterrupted run |
| Dedup.Coverage | internal/pipeline/pipeline.go:154-219 | after a full run every item is linked to a stored question that has its hash or lies within the threshold |
| Pipeline.ProcessOne | internal/pipeline/pipeline.go:158-218 | with no other writer, a row is created exactly when no row has the hash and none is within the threshold; it holds the extraction column by column; the question is linked to it, or to the row of the hash, or else to the nearest, under its own number |
| Pipeline.ProcessItems | internal/pipeline/pipeline.go:147-219 | with no other writer, the loop leaves the tables of the item-level run up to its end or the cancellation; the rows it adds are those of extracted questions, and its links are one to each target in order |
| Pipeline.AddedLinks | internal/pipeline/pipeline.go:166-217 | every target of the loop is linked, and every link it adds is the job's, with the number of an extracted question and confidence 0; links that were there keep what they say |
| Extraction.NewRowContent | internal/pipeline/pipeline.go:198-210 | a created row has the extraction's number, text, choices, answers and tags with ai-generated, its labeling from the first id that is not empty, its type from the presence of choices, the normal form and hash of its text, its vector, status moderation, no verifier, confidence 0 and no explanation |
| Extraction.ToPipeline | internal/ai/extractor/schema.go:66-88 | the extractor's questions come through in order with their texts, answers, confidence and tags, the choices with ids in the style of the first answer's id |
| Extraction.StoredLabels | internal/httpapi/dto/question.go:63-90 | a stored row has the labeling its first answer's id calls for, and shows a choice under the id it was extracted with exactly when the text did not occur earlier and, under letters, is one of the first 26 |
| Pipeline.EveryQuestionLinked | internal/pipeline/pipeline.go:154-219 | after a loop that reached its end every extracted question is linked for the job's session and image to a row with its hash or, with an embedding only, within the threshold |
| Pipeline.DedupClasses | internal/pipeline/pipeline.go:158-171 | without embeddings two extracted questions are linked to the same row exactly when their lower-cased word sequences agree |
| Extraction.ToResults | internal/ai/verifier/schema.go:82-96 | the results are indexed 0 to min(n, m) − 1 in order, each with its own answers, confidence and explanation |
| Pipeline.ResolveExact | internal/pipeline/pipeline.go:360-368 | the verifier's answer replaces a non-empty extracted one only when it is non-empty and at least 0.80 confident; the outcome is empty only when both are |
| Pipeline.WriteBack | internal/pipeline/pipeline.go:231-239 | the write-back loop applies the results in order and skips indices out of range; VerificationLands, VerificationSpares and VerificationTouchesOnly say what that leaves |
| Pipeline.VerificationLands | internal/pipeline/pipeline.go:231-239 | each row created in the run is updated at most once, with its own result and its own extraction: with a fitting confidence it ends with the result's answers when there are some and either nothing was marked or the confidence is at least 0.80, else with its own, and with the result's confidence and explanation |
| Pipeline.VerificationSpares | internal/pipeline/pipeline.go:231-239 | every other row is left alone, whatever indices the results carry |
| Pipeline.VerificationTouchesOnly | internal/pipeline/pipeline.go:231-239 | nothing but answers, confidence and explanation changes |
| Pipeline.VerifyNew | internal/pipeline/pipeline.go:221-245 | after the verification step each new row with a fitting result holds the verifier's answers exactly when there are some and either nothing was marked or the confidence is at least 0.80, else its own extraction's; a marked answer survives every confidence below 0.80; rows without a result and all others are unchanged |
| Pipeline.ExecuteExtracted | internal/pipeline/pipeline.go:147-248 | with no other writer, rows stored before the run are unchanged; every other row holds one of the extracted questions column by column, with the answers verification leaves it, and only a complete run is verified; a run that is not cut short reaches the end of the loop with every question linked |
| Pipeline.StorePlaceholder | internal/pipeline/pipeline.go:307-323 | stores and links the placeholder, or neither when the insert is refused |
| Pipeline.PlaceholderIs | internal/pipeline/pipeline.go:306-315 | the placeholder is an error row with the code in its text, the hash of the image id and its tag |
| Pipeline.HandleExtractionFailure | internal/pipeline/pipeline.go:306-320 | built without a labeling, the placeholder is refused and the store is left as it was |
| Pipeline.PlaceholderLinkedIff | internal/pipeline/pipeline.go:316-323 | after the handler the placeholder is linked exactly when its labeling is admitted and its hash was free, or it was linked before |
| Pipeline.CutOffPlaceholderStaysUnlinked | internal/pipeline/pipeline.go:316-321 | even if the handler did pass a labeling the column admits, which it does not: cut off between insert and link, the placeholder would stay unlinked when the handler runs again |
| Restart.Statement | internal/pipeline/pipeline.go:161-217 | each statement of the loop changes the tables, and chooses the next statement or stops with its error, as the loop's text says, whatever others have written before it |
| Restart.TraceIsRun | internal/pipeline/pipeline.go:154-219 | the points the loop passes through on the tables are, by hash, the states of the statement-level machine |
| Restart.DieAfter | internal/pipeline/pipeline.go:154-219 | a worker that dies after n statements leaves the tables of the machine cut off after n steps |
| Restart.RunsToEndAfterCrashes | internal/pipeline/pipeline.go:71-73 | with no other writer and fixed extraction and embedding results, however often and wherever the worker died before, one run to the end leaves the tables, by hash, as if it had never died |
| Restart.SameViewMeans | internal/pipeline/pipeline.go:154-219 | two stores that look the same by hash have the same questions, with the same number, text, normal form, choices, labeling, type, vector, status and verifier, and the same links |
| Interference.StatementIsWrite | internal/pipeline/pipeline.go:154-219 | a statement of a loop is one of the writes, or none, so other loops are among the other writers |
| Interference.InvThroughout | internal/pipeline/pipeline.go:154-219 | the store's invariant holds at every point of a loop among arbitrary writes of others, deletions included |
| Interference.NothingLost | internal/pipeline/pipeline.go:154-219 | while others remove nothing, questions keep their hashes and links stay |
| Interference.CoverageAmongWriters | internal/pipeline/pipeline.go:154-219 | while others remove nothing, at every point each item the loop is through with is linked for the job's session and image to a row that has its hash or was the nearest when the loop looked |
| Interference.WhoInserts | internal/storage/postgres/migrations/0002_core.sql:31 | only a create or an import of a question with the hash makes a free hash taken |
| Interference.StopsIff | internal/pipeline/pipeline.go:210-213 | a create is refused exactly when, between the item's exact lookup and its create, another writer inserted the same hash |
| Interference.OnlyCreatesStop | internal/pipeline/pipeline.go:161-217 | while others remove nothing, nothing but a create stops a loop |
| Interference.ProgressAmongWriters | internal/pipeline/pipeline.go:154-219 | four own statements an item bring the loop to its end unless it is stopped, whatever others write in between |
| Interference.EndsCovered | internal/pipeline/pipeline.go:90 | a loop that has had that many statements has linked every item, or has been stopped |
| Interference.SecondCreateLoses | internal/pipeline/pipeline.go:83-86 | when another worker creates the same new question between lookup and create, the loop is stopped with Duplicate and its image has no link to the question |
| JobRun.Execute | internal/pipeline/pipeline.go:102-248 | with no other writer, every question of a reply is processed and linked, whatever its error code, unless a cancellation or a statement error cuts the run short; without a reply or with an empty one the failure handler runs, under the code of the reply, ai_unavailable or extraction_failed, and stores nothing |
| JobRun.Run | internal/pipeline/pipeline.go:74-97 | the row a run finds processing becomes done exactly when everything was processed, or there was nothing to process, and the completion landed; it becomes failed with the error at a live context; a cancelled run leaves it, and every other row is left alone |
| Embedder.EmbedBatch | internal/ai/embedder/embedder.go:80-113 | succeeds exactly on one item per text, all naming a slot and of the expected length; each slot then holds the vector of the last item naming it; otherwise the error is that of the first item at fault |
| Embedder.EverySlotFilledIff | internal/ai/embedder/embedder.go:94-112 | an accepted response fills every slot exactly when its indices are pairwise distinct |
| Embedder.SlotHolds | internal/ai/embedder/embedder.go:98-111 | with distinct indices the slot an item names holds that item's vector |
| Embedder.FaithfulResponse | internal/ai/embedder/embedder.go:76-79 | a service that answers once per text, in any order, gives every text its own vector |
| ImportRows.NormalizeRow | internal/importer/parse.go:91-102 | drops trailing blank cells, pads to five columns, and refuses exactly the rows with more than five left |
| ImportRows.SplitMulti | internal/importer/parse.go:106-115 | the trimmed, non-empty items of the cell in order |
| ImportRows.CellRoundTrip | internal/importer/parse.go:104-115 | a cell joined from clean items reads back as those items |
| ImportRows.CellsReadClean | internal/importer/parse.go:104-115 | whatever a cell reads as is a list of clean items, and writing and reading it again changes nothing |
| ImportRows.ItemsOfOne | internal/importer/parse.go:106-115 | a cell without separator reads as its trimmed text, or as nothing when that is empty |
| ImportRows.ItemsOfMore | internal/importer/parse.go:106-115 | a cell reads as what is in front of its first separator followed by what is behind it |
| ImportRows.TrimExact | internal/importer/parse.go:110 | trimming takes away the white space at both ends and nothing else |
| ImportRows.BuildQuestion | internal/importer/validate.go:26-72 | a row is accepted exactly when its text, choices and answers are well-formed for the type the choices give and it has at most 20 tags; it then holds the items of its cells, the constants 0, letter and 0.99, its own normal form and hash, and the tags with import |
| ImportRows.RowReadsBack | internal/importer/parse.go:88-115 | a question written into the five cells reads back with the same text, choices, answers, explanation and tags; an explanation of white space only is lost exactly when no tags follow it |
| Importer.Report.AddRowError | internal/importer/report.go:25-30 | always counts, keeps only the first hundred errors |
| Importer.EveryRowOnce | internal/importer/importer.go:73-88 | each file row is valid or in error, never both, in file order and under its own row number |
| Importer.ParseAll | internal/importer/importer.go:73-88 | the parse loop collects exactly the valid rows and records exactly the others |
| Importer.EmbedAll | internal/importer/importer.go:122-151 | without an embedder the rows are unchanged; otherwise they are the rows of the chunk recursion |
| Importer.EmbeddingPrefix | internal/importer/importer.go:122-151 | the rows given a vector are a prefix made of whole chunks of 100 up to the first failed one; each holds the vector at its place in the answer to the texts of its chunk, and nothing else of it changes; all others are unchanged |
| Importer.ChunkFails | internal/importer/importer.go:135-146 | a chunk fails exactly when its call does or answers with another number of vectors |
| Importer.StoreAll | internal/importer/importer.go:92-113 | the upserts that commit are applied in order until cancellation; created counts the distinct hashes the store did not hold, and failures are recorded |
| Importer.PlanAddsUp | internal/importer/report.go:13-15 | stored, failed and skipped rows add up to the file, and rows are skipped exactly when the import was cancelled before its last valid row |
| Importer.Import | internal/importer/importer.go:53-115 | a file-level failure changes nothing; otherwise the store is the fold of the committed upserts and TotalRows = Created + Updated + Failed + skipped |
| Upserts.UpsertOne | internal/storage/postgres/question_import.go:39-56 | one upsert changes the row of its own hash and no other |
| Upserts.LastWins | internal/storage/postgres/question_import.go:39-77 | after any run of upserts each hash has the content and tags of its last row, its prior id, number, labeling and normal form or else those of its first row, and the last vector that was not nil or else the stored one |
| Upserts.CreatedStep | internal/importer/importer.go:103-112 | an upsert reports created exactly when it adds to the distinct new hashes |
| Upserts.Reimport | internal/storage/postgres/question_import.go:39-77 | replaying the same contents creates nothing, keeps every id and changes no content |
| ImportRuns.ImportLastWins | internal/importer/importer.go:75-115 | after an import every hash is as the last-wins map over the committed rows says, and without failure or cancellation those are the file's valid rows one by one |
| ImportRuns.ReimportFile | internal/importer/importer.go:75-115 | importing the same file again, also later and by someone else, has Created = 0, keeps every id and every content, and with the same embedder every vector |
| ImportRuns.WrittenRowEnds | internal/importer/importer.go:75-115 | a question written into a file and imported is found under its hash with its text, choices, answers, explanation and tags, verified by the importer, under the number, labeling and normal form the hash had before, unless a later row has the same hash |
| ImportRuns.ImportKeepsNorms | internal/storage/postgres/question_import.go:16-18 | with an injective digest the normal form that is never rewritten stays that of the stored text |
| ImportRuns.KeptVectorTrueIff | internal/storage/postgres/question_import.go:18-20 | the vector a hash is left with belongs to its text exactly when the last text embedded under the hash and the last one imported have the same vector |
| ImportRuns.KeptVectorGoesStale | internal/storage/postgres/question_import.go:18-20 | two texts that differ in a trailing space share a hash, and the second keeps the first one's vector |
| Accounts.UserRepo.Create | internal/storage/postgres/user_repo.go:27-44 | refuses a taken email, otherwise adds an active user at version 0 under an id never used before |
| Accounts.UserRepo.Update | internal/storage/postgres/user_repo.go:131-207 | missing users, changes of one's own role or state, the only active admin and emails of others are refused in this order and change nothing; otherwise email, role and state are replaced, the password stays and the version grows exactly when role or state changes |
| Accounts.UserRepo.Delete | internal/storage/postgres/user_repo.go:209-248 | refuses a missing user, oneself and the last active admin; otherwise removes the user |
| Accounts.UserRepo.ResetPassword | internal/storage/postgres/user_repo.go:250-272 | replaces the hash and raises the version of an existing user and changes nothing else |
| Accounts.UserRepo.Authenticate | internal/httpapi/middleware.go:31-47 | lets a token through exactly when its user exists, is active and has the token's role and version |
| Accounts.UserRepo.Login | internal/httpapi/handlers/auth.go:69-103 | issues exactly for an active row with the email and password, from that row, so the token is accepted |
| Accounts.UserRepo.Refresh | internal/httpapi/handlers/auth.go:105-116 | issues only to an accepted token, and the new token carries the same claims |
| Accounts.ResetDecidesLogin | internal/storage/postgres/user_repo.go:265-268 | after a reset exactly the new password logs in under the user's email |
| Accounts.UpdateDecidesLogin | internal/storage/postgres/user_repo.go:188-195 | after an update one logs in under the new email, with the password as it was, while the account is active; the email given up logs in nobody |
| Accounts.RegisterDecidesLogin | internal/storage/postgres/user_repo.go:27-44 | a new account is logged into with its own password and no other |
| Accounts.RemoveDecidesLogin | internal/storage/postgres/user_repo.go:240-242 | a removed account is not logged into |
| Accounts.RunKeepsInv | internal/storage/postgres/user_repo.go:172-181 | emails stay unique and ids are never reused, over every run |
| Accounts.RevocationExact | internal/httpapi/middleware.go:58-63 | a token accepted now is accepted after any run exactly when nothing in it deleted its user, reset the password or changed role or active state |
| Accounts.RejectedForever | internal/httpapi/middleware.go:31-40 | a token that was issued and has been rejected is never accepted again |
| Accounts.StepKeepsAdmin | internal/storage/postgres/user_repo.go:161-170 | no transaction, run on its own, removes the last active admin |
| Accounts.RunKeepsAdmin | internal/storage/postgres/user_repo.go:230-238 | some active admin is left after every serial run |
| Accounts.LastAdminNeedsOutsideCaller | internal/storage/postgres/user_repo.go:156-170 | a caller who is an active admin never meets the last-admin refusal: self-protection already covers it |
| Accounts.WritesTakeAdmins | internal/storage/postgres/user_repo.go:188-201 | the writes of such transactions take exactly the admins whose transaction got past the unique email index |
| Accounts.OverlapKeepsAdminIff | internal/storage/postgres/user_repo.go:161-170 | updates and deletions of different active admins that all counted before any of them writes leave an active admin exactly when more were counted than are taken |
| Accounts.OverlapBound | internal/storage/postgres/user_repo.go:230-238 | when no update changes an email, that is exactly when more were counted than transactions overlap |
| Accounts.GuardIsSerialOnly | internal/storage/postgres/user_repo.go:138-170 | for any number of active admins from two on, updates, or deletions, of all of them pass every guard when all count before any writes, and then none is left |
| Normalize.FieldsOfJoin | internal/domain/question.go:99 | splitting words joined by single spaces gives the words back |
| Normalize.NormalForm | internal/domain/question.go:98-100 | the normal form is the lower-cased words joined by single spaces |
| Normalize.NormalizeIdempotent | internal/domain/question.go:98-100 | normalizing twice is normalizing once |
| Normalize.SameNormalFormIff | internal/domain/question.go:98-100 | two texts share a normal form exactly when their lower-cased word sequences agree |
| Normalize.CaseIgnored | internal/domain/question.go:94-100 | texts that differ in case only share a normal form |
| Normalize.SpaceIgnored | internal/domain/question.go:94-100 | white space in front of a text does not matter, and a word with white space behind it is one word more |
| Search.ThreePassesAreOne | internal/storage/postgres/question_repo.go:572-577 | the three replacement passes are one pass that escapes each special character once |
| Search.WrappedPatternOccurs | internal/storage/postgres/question_repo.go:207 | the escaped term between percent signs matches exactly the texts that contain the term |
| Search.SearchIsLiteral | internal/storage/postgres/question_repo.go:207 | under ILIKE it matches exactly the texts that contain the term up to per-character case folding |
| ModerationSearch.ModerationSearchExact | internal/storage/postgres/question_repo.go:183-207 | the listing's condition selects exactly the rows of the status whose text, JSON text of the choices, JSON text of the answers or some tag contains the term |
| JsonSearch.TextContainsIffElement | internal/storage/postgres/question_repo.go:192-201 | a term without quotes, with no backslash but one in front of something, and no piece of JSON's notation is in the JSON text of a list of printable strings exactly when some string contains it |
| JsonSearch.InnerEscapeDisagrees | internal/storage/postgres/question_repo.go:192-201 | for a term with a quote or backslash in its middle some list has the term in one of its strings only or in its text only |
| JsonSearch.OuterEscapeDisagrees | internal/storage/postgres/question_repo.go:192-201 | the same for a term with one at its first or last character, a single backslash in front of something aside |
| JsonSearch.SearchesElementsIff | internal/storage/postgres/question_repo.go:192-201 | searching the JSON text is searching the strings, for every list of printable strings, exactly for the terms of TextContainsIffElement |
| JsonSearch.QuotedTermMisses | internal/storage/postgres/question_repo.go:200-201 | a choice with a quote in it is not found by its own text |
| ModerationSearch.ModerationSearchByElement | internal/storage/postgres/question_repo.go:183-207 | for the terms of JsonSearch.TextContainsIffElement the listing selects by text, by some choice, by some answer or by some tag |
| Drafts.ValidateDraft | internal/domain/validate.go:14-35 | accepts exactly the well-formed drafts |
| Drafts.AnswersSubsetOfChoices | internal/domain/validate.go:41-55 | true exactly when every answer is one of the choices |
| Labels.IndexToLetter | internal/httpapi/dto/question.go:94-103 | the loop ends with the column label of the index |
| Labels.LettersDecode | internal/httpapi/dto/question.go:92-103 | bijective base 26 decodes every label to its index |
| Labels.DecodedLetters | internal/httpapi/dto/question.go:92-103 | every non-empty string over A to Z is the label of its decoding, so labels and naturals correspond one to one |
| Labels.LabelDecodes | internal/httpapi/dto/question.go:85-90 | labels of either kind decode to the index |
| Labels.IdForValue | internal/httpapi/dto/question.go:71-83 | the label of the value's first occurrence, or nothing when it does not occur |
| Labels.DeriveAnswerRefs | internal/httpapi/dto/question.go:63-69 | one reference per answer in order, with the id of its first occurrence |
| Labels.AcceptedAnswersDecode | internal/httpapi/dto/question.go:63-83 | in an accepted multiple-choice draft each answer's id is not empty and decodes to the least index that holds the answer |
| Labels.AssignChoiceIds | internal/ai/extractor/schema.go:105-114 | each choice gets the label of its position |
| Labels.LabelingSurvives | internal/pipeline/pipeline.go:203-205 | the labeling detected at extraction is the one inferred from the ids and stored |
| Labels.LetterLabelsAgreeIff | internal/ai/extractor/schema.go:130-137 | an extraction letter equals a display letter exactly for the same index below 26, up to the 32 bits of a rune |
| Labels.NumberLabelsAgreeIff | internal/ai/extractor/schema.go:132-133 | an extraction number equals a display number exactly for the same index |
| Labels.ExtractionLabelsAgree | internal/ai/extractor/schema.go:105-137 | a choice's extraction id equals the id derived for its text at read time exactly when the text did not occur earlier and, under letters, it is one of the first 26 |
| Labels.DistinctChoicesAgree | internal/ai/extractor/schema.go:125-137 | for distinct choices that is: always under numbers, and for the first 26 under letters |

## Left out

- HTTP handlers, routing, paging, CORS, JSON shapes and configuration: plumbing around the modelled operations.
- Vision, verification and embedding calls, image enhancement, CSV and XLSX readers: their results are inputs.
- SHA-256, bcrypt, signing and expiry of tokens: the digest is a function, injective where a statement says so; a verified token is its claims.
- The steps inside a transaction under READ COMMITTED, SKIP LOCKED contention and deadlocks: statements and transactions are atomic.
- A database error at a statement of the loop ends the run with an error (`JobRun.Execute`); which error, apart from a refused create, is an input.
- JobRun.Run: exclusive access to the store during one run; what other writers can do to its loop is stated in Interference, not in this method.
- QueueRuns.RunKeepsInv: deleting a user also deletes the user's jobs; the queue theorems are about jobs that stay, and Ownership has the deletion.
- `ImageRepo.CleanBytes` (`internal/storage/postgres/image_repo.go:119`) clears an image's bytes and has no caller; it is not one of the writers.
- LISTEN/NOTIFY, polling and reconnecting: a worker may try to claim at any time.
- Image columns `extraction_error`, `verification_report`, mime and size; session windows and expiry; listing order.
- The ivfflat index is taken to be exact: approximate search may miss a nearest row.
- Rounding in the numeric(3,2) confidence columns and in float32 vectors: values are reals; only a confidence that does not fit the column is refused.
- Retry.BackoffBounds: the code multiplies float64 values, where the factor can round up to 1.2 and the wait to exactly 1.2c.
- The 64-bit token version and 32-bit attempt counter are unbounded: neither comes near its limit.
- The foreign key of `verified_by`: a write by a user who is being deleted is one of the failing attempts of the import, and is not modelled for expert updates and manual creates.
- ManualEntry.Create: lookup and insert are one step, as in a handler nobody interferes with; a lost race would be an internal error.
- Interference.CoverageAmongWriters: an import may replace the vector a row was found by, so nearness is stated for the time of the lookup.
- JsonSearch.SearchesElementsIff: for terms, choices and answers without control characters, which JSON writes with letters.
- Repository.QuestionRepo.Create: a tag that fails after the row was inserted leaves the row with fewer tags and no link; the model inserts row and tags together.
- Repository.QuestionRepo.FindSemantic: ties between equal distances go to the smaller digest, where the database may return either; convergence needs one choice.
- Repository.QuestionRepo.Delete: count and delete are two statements in the code and one step here.
- Accounts.RunKeepsAdmin: holds for transactions one after another; OverlapKeepsAdminIff has those that overlap.
- Accounts.UserRepo.Login: the row that is read and the token issued from it are one step; a change in between counts as one after the issue.
- Dedup.Convergence: answers, confidence and explanation are rewritten by verification, tags can be lost when a run dies among its tag statements, and a link's number is that of the run that made it; these are not compared.
- Search.SearchIsLiteral: case folding is per character, and folding does not touch the pattern characters.
- Normalize.NormalForm: lower-casing is per character, idempotent and keeps white space as it is; letters that lower to several characters are not covered.
- Labels.LabelDecodes: numbers are written in ASCII digits without sign; indices are never negative.
- Labels.DistinctChoicesAgree: for fewer choices than a 32-bit rune can count.
- Question and user listings, session ownership lookups and the moderation view's extra columns: reads without effect.
