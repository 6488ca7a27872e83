# A verified model of the memory pipeline

The project models how coding events become memory cards in a SQLite-first store, and proves what each stage
keeps. Every write of the modelled program runs in one transaction, so a repository or store call is one step on
in-memory tables. `dafny verify dfyconfig.toml` checks everything; nothing is executed.

Two views of each stage are kept together. A datatype with functions (`Step`, `Apply`, `Capture`, `Merge`) says what
one call does; lemmas reason about any sequence of calls. Classes (`MemoryRepository`, `IngestService`, `Service`,
`ExtractionWorker`, `ContextAssembler`, `ExtractionService`, `ExtractionStore`, `CardStore`, `AgentBridgeService`, `MaintenanceRepository`, `AliasStore`,
`VerificationStore`, `ManifestIndex`) update their fields with the loops of the program, and every method is proved
to do what the function says.

| part | files |
|---|---|
| canonical ingest, replay and history import | Base, Ingest, IngestTheorems, Rows, Repository, Replay, History |
| durable queue and its two drivers | Outbox, System, Backlog |
| context window | Context |
| candidates, cards and their lifecycle | Memory, MemoryTheorems, Consolidation, Policy, Extraction |
| from delivered events to evidence | Pipeline |
| agent bridge and maintenance requests | Bridge, BridgeTheorems, BridgeRetries, BridgeService, Maintenance |
| project scope and verification | Aliases, Bindings, Manifest, Lookup, Verify |

## What the model found

Where a promise of the design does not hold of the code, the code is kept, an input shows it, and the named member
says when it holds.

- `repositories` has a unique (project, root path) that ingest does not turn into a conflict. A replay flush whose first
  rejection is that raw error is rolled back and crashes, so batching shows exactly then
  (`Replay.BatchingVisibleExactly`), and a conflict may later surface as that error instead
  (`IngestTheorems.ConflictCanBecomeFault`).
- Blank external and session ids are skipped by the identity lookup but not by the indexes: such an event is a conflict
  without a named rival (`IngestTheorems.VerdictExact` covers it).
- A repeated capture is not always a no-op. The validation payload of a request may override its own `capture_id`
  (`BridgeRetries.OverriddenIdRefused`), and a redaction that changes its own output makes the retry a refusal
  (`BridgeRetries.RetryExactly` gives the exact condition). It never writes anything either way.
- A capture that runs across position 5000 of its session can never be repeated (`BridgeRetries.RetryAcrossLimit`).
- A bridge session beyond 5000 events stays linked but can never be captured to again
  (`BridgeTheorems.FullSessionRefuses`; `BridgeTheorems.CaptureLimitExactly` is the exact limit).
- Importing a history thread again after it has grown loses its first new item and its new closing event
  (`History.GrownThread`).
- A task whose consolidation raises is counted as extracted and as failed (`Backlog.ClassesCover`).
- Retrying an older maintenance request does not supersede a newer pending one (`Maintenance.TwoPending`).
- Overlapping verification runs can put a binding back to unverified and lose history entries
  (`Bindings.VerdictErased`; `Bindings.OverlapExactly` gives both conditions).
- Two manifests with one content hash can merge differently when their files collide after path normalisation
  (`Manifest.ArrivalOrderShows`; `Manifest.CompositeExactly` says exactly when).
- The verdict on an ambiguous symbol can depend on the order in which two deliveries of one snapshot arrive
  (`Verify.VerdictOrderShows`); `Verify.VerdictTurnsExactly` and `Verify.OrderShowsExactly` say exactly when.
- A binding of a path and a symbol can be verified although no manifest holds the file (`Verify.VerifiedWithoutFile`;
  `Verify.VerifiedWithoutFileExactly` says exactly when).
- A file can be reported missing although a manifest holds it, when a manifest merged earlier lists it as gone
  (`Verify.MissingOverExisting`; `Verify.MissingExactly`).
- Repeating the statement of an active card can open another card when a different card shares a target
  (`Consolidation.RepeatOpensCard`; `Consolidation.RepeatOpensExactly` says exactly when).
- A decision that falls back to the card holding its key records a creation but cites no evidence
  (`MemoryTheorems.CitedUnlessFallback`).
- An `ensure` whose clock has gone back can hand a raw project to an owner the call does not name
  (`Aliases.ClockBackMoves`; `Aliases.EnsureMovesExactly` says exactly when).

## Conventions

SHA-256 ids are the hashed values themselves or an injective function; redaction, text normalisation, path and symbol
normalisation, event ids and JSON sizes are function parameters that return the same value for the same input.
Redaction is assumed to work entry by entry and to leave alone what it does not report (`Redactor.Lawful`).
A card's id is the hash of its project, kind and canonical key, so here it is those values, and
`MemoryTheorems.OneCardPerKey` says that the fields a card carries keep agreeing with its id.
Timestamps are integers, confidences and scores are reals. Choices the database leaves open (ties on `created_at`,
random ids) are arbitrary in the model. A constraint error that no handler turns into a ConflictError is `Fault` or
`Broken`.

## Model

| member | source | states |
|---|---|---|
| IngestTheorems.StepInv | src/codememory/storage/repository.py:278-517 | One ingest keeps the whole store invariant: event id, (agent, adapter, external id) and (session, seq) unique; one job that names the event's own type, project, task and session, and one search row per event; every event owned by its project, task, repository and session rows; `last_seq` the maximum and `ended` exactly when a session_ended event is held |
| IngestTheorems.ReachableInv | src/codememory/storage/repository.py:278-538 | That invariant holds in every store reachable from the empty one by any stream of events |
| IngestTheorems.VerdictExact | src/codememory/storage/repository.py:369-422 | A duplicate is exactly an event that is itself stored, a rejection is exactly a clash with a stored fact, and everything else is accepted and then stored; only acceptance changes the store |
| IngestTheorems.VerdictPermanent | src/codememory/storage/repository.py:278-422 | Resubmitting the i-th event after the whole stream and any further traffic changes nothing; it is a duplicate of its own id if it was not rejected and rejected if it was |
| IngestTheorems.ResubmitNoOp | src/codememory/storage/repository.py:396-517 | Resubmitting a whole stream in order leaves the store as it was |
| IngestTheorems.AgainAfter | src/codememory/storage/repository.py:396-517 | One event, any traffic, the same event again: duplicate exactly if the first verdict was no rejection |
| IngestTheorems.ConflictStaysExactly | src/codememory/storage/repository.py:278-366 | A rejected event is a ConflictError again exactly while the unhandled uniqueness of (project, root path) does not fire first |
| IngestTheorems.ConflictCanBecomeFault | src/codememory/storage/repository.py:304-333 | Concrete streams: a session conflict that becomes a raw constraint error once another event registers the same root under another repository id |
| IngestTheorems.TaskHasOneProject | src/codememory/storage/repository.py:278-303 | Two stored events of one task belong to one project |
| IngestTheorems.RunGrows | src/codememory/storage/repository.py:278-422 | No run removes or changes a stored event or the owner of a task, repository or session |
| Rows.ReachableDated | src/codememory/storage/repository.py:278-366 | In every reachable store a project, task and repository was created at the time of one of its events and updated at that of its latest; a repository has the version control of one of its events; a session starts with one of its events and ends with a closing one |
| Rows.AcceptedRows | src/codememory/storage/repository.py:278-366 | What an accepted event does to its own project, task, repository and session rows, field by field; every other row stays |
| Rows.RepositoryExactly | src/codememory/storage/repository.py:119-129 | Without a declared repository two events name the same one exactly when project and root agree, unless a project name contains a line break |
| Repository.MemoryRepository.ExistingByIdentity | src/codememory/storage/repository.py:369-391 | The three lookups in order find the row the specification names, or none |
| Repository.MemoryRepository.EnsureEntities | src/codememory/storage/repository.py:278-366 | The first violated ownership check decides the verdict; otherwise the four entity tables get exactly the specified rows |
| Repository.MemoryRepository.InsertEvent | src/codememory/storage/repository.py:426-511 | Event row, job, search row and session close, or the constraint that blocks them; the job names the type, project, task and session of the event |
| Repository.MemoryRepository.IngestWithConnection | src/codememory/storage/repository.py:396-511 | One event inside a transaction is `Step`: same verdict, and the same store unless rejected |
| Repository.MemoryRepository.IngestOne | src/codememory/storage/repository.py:513-517 | One event in its own transaction is `Step`, a rejected one leaves every table unchanged, and no existing job row is touched |
| Repository.MemoryRepository.IngestMany | src/codememory/storage/repository.py:519-538 | A batch commits exactly when no event of it would be rejected one at a time, with the same verdicts and store; otherwise it reports the first rejection and leaves no trace |
| Replay.BatchingVisibleExactly | src/codememory/ingest/service.py:138-160 | One flush leaves a store other than one-at-a-time ingest exactly when its first rejection is a raw constraint error and an event before it was accepted |
| Replay.IngestService.Flush | src/codememory/ingest/service.py:138-160 | Batch, then per-record fallback after a conflict: same store and counts as ingesting the records one at a time, unless a constraint error escapes |
| Replay.IngestService.Retry | src/codememory/ingest/service.py:146-157 | The per-record fallback is one-at-a-time ingest of the batch |
| Replay.IngestService.ReplayJsonl | src/codememory/ingest/service.py:100-189 | For every stream, starting store and batch size: a replay that neither crashes nor stops at `max_errors` ends in the store and with the four counts of one-at-a-time ingest; the counts sum to `total_lines`; a crash leaves the store of some prefix of the stream; without a crash, accepted is the number of events the store gained, duplicates the number of records stored when their turn came, conflicts the number then ruled out by a stored fact, and invalid the number of lines that are no event |
| Replay.DrainCounts | src/codememory/ingest/service.py:119-136 | One-at-a-time ingest adds to its three counts exactly the events gained, the repeats and the refusals |
| Replay.IngestService.Consume | src/codememory/ingest/service.py:162-187 | One line keeps the loop invariant: draining the pending buffer gives the reference result |
| History.ThreadEvents | src/codememory/history/codex.py:229-360 | A thread becomes events numbered 0..n+1, each the child of the one before, one per visible item in order between an opening and a closing event |
| History.GrownThread | src/codememory/history/codex.py:229-360 | A thread imported again after it has grown: the items imported before are duplicates and the opening event is one exactly when it says the same; the first new item and the new closing event are always rejected, and the items between them meet nothing of the old thread |
| History.HistoryImporter.IngestChunk | src/codememory/history/codex.py:171-188 | One chunk with its fallback has the verdicts and store of one-at-a-time ingest unless its first rejection is a constraint error |
| History.HistoryImporter.ImportThread | src/codememory/history/codex.py:171-213 | The chunked import of a thread refines one-at-a-time ingest, and stops exactly at the first chunk whose first rejection is a constraint error; its counts are the events gained, the repeats, and the conflicts that are no raw constraint errors |
| Outbox.RunSound | src/codememory/storage/repository.py:1124-1286 | Over every run: a job is processing exactly when it has a lease, its attempts are its claims, and they never exceed `max_attempts` plus its releases |
| Outbox.ClaimsBounded | src/codememory/storage/repository.py:1124-1286 | Without releases a job is claimed at most `max_attempts` times and after its last claim never waits again |
| Outbox.TerminalForever | src/codememory/storage/repository.py:983-1286 | `completed` and `dead` are never left, and no row disappears or changes its payload |
| Outbox.FailureIsFinalExactly | src/codememory/storage/repository.py:1252-1286 | Over every run without releases: a failure makes a processing job dead exactly when told to or when the job has been claimed `max_attempts` times, an expiry exactly in the second case, and no later traffic brings it back |
| Outbox.LeaseExclusion | src/codememory/storage/repository.py:1131-1204 | Under a clock that does not go back, two successive claims of one job with no complete, fail or release between them are separated by the first lease's expiry |
| Outbox.CountsSum | src/codememory/storage/repository.py:1099-1108 | The five status counts add up to the number of jobs |
| Outbox.UpdatedRow | src/codememory/storage/repository.py:1206-1286 | Every update acts on the leased job it names, or on the waiting jobs of its task and type, counts exactly those, and never touches what a job is or how often it was tried |
| Outbox.ClaimedRow | src/codememory/storage/repository.py:1131-1204 | A claim ends the leases that have run out, to dead or to immediate retry, leases what it selected with one attempt more, and leaves the other rows |
| Outbox.FailedWaits | src/codememory/storage/repository.py:1267-1275 | A failed job that is not dead waits at least two seconds and at most 1024, twice as long with every further attempt, or as long as the caller says |
| Outbox.EightAttempts | src/codememory/storage/repository.py:470-485 | Over every run without releases no job is claimed more than eight times |
| System.PlayConsistent | src/codememory/storage/repository.py:396-511 | Over every interleaving of ingest and queue traffic the store invariant holds and the queue is the one its own operations produce |
| System.NoJobLost | src/codememory/storage/repository.py:479-511 | After every interleaving the five counts add up to the number of accepted events, one job per event |
| System.JobOfEvent | src/codememory/storage/repository.py:470-485 | In every world of ingest and queue traffic a job names the task, project, type and session of the stored event with its id |
| System.TaskClaimExactly | src/codememory/storage/repository.py:1169-1204 | A claim for a task leases a job of a stored event of that task, and finds none exactly when no stored event of the task has a job that is available |
| Repository.MemoryRepository.ExpireLeases | src/codememory/storage/repository.py:1136-1142 | Every expired lease is cleared, to `dead` when out of attempts and to `retry` otherwise; no other row changes |
| Repository.MemoryRepository.SelectOldest | src/codememory/storage/repository.py:1143-1155 | The oldest min(limit, eligible) rows, each once, in age order |
| Repository.MemoryRepository.ClaimOutbox | src/codememory/storage/repository.py:1124-1167 | A bulk claim leases exactly the oldest min(limit, eligible) available jobs after expiring old leases |
| Repository.MemoryRepository.ClaimOutboxForTask | src/codememory/storage/repository.py:1169-1204 | The task claim expires old leases and leases the oldest available job of the task, or none exactly when there is none |
| Repository.MemoryRepository.Update | src/codememory/storage/repository.py:1206-1286 | Complete, release, fail and the two per-task updates change exactly the rows their WHERE clause selects and report how many |
| Backlog.Service.Finish | src/codememory/backlog.py:252-288 | The two finishing writes are the specified ones, each its own transaction, with any legal queue traffic of other processes between them |
| Backlog.Service.ProcessTask | src/codememory/backlog.py:206-288 | One planned task is one step: other traffic, a task claim of the oldest available job, other traffic, and the writes its outcome calls for; a task is refused only by a claim that found no available job of it |
| Backlog.Service.Process | src/codememory/backlog.py:206-293 | A whole pass is the legal sequence of those steps, one per planned task in order, interleaved with any traffic; its counters are the numbers of results of each class and the sums over them of candidates, empty runs and cards created, merged and versioned, and it counts as completed what its own completing writes changed |
| Backlog.LeasedExactly | src/codememory/backlog.py:206-218 | A task is leased exactly when after expiry one of its ingest jobs is available |
| Backlog.WritesExactly | src/codememory/backlog.py:252-287 | The two writes of a step by its outcome: a success completes the lease and the waiting jobs of the task, or gives the lease back if completion is off, as a run in progress does; a failure fails both, for good exactly when the run is dead, with the text it gave |
| Backlog.LeaseGivenUp | src/codememory/backlog.py:252-287 | The write on the leased job ends the lease: completed after a success, dead after a dead run; no other row changes |
| Backlog.TaskSettled | src/codememory/backlog.py:260-287 | The write on the task leaves none of its jobs waiting after a success or a dead run and none pending after a failure; leased rows and other tasks keep theirs |
| Backlog.StepLeaves | src/codememory/backlog.py:206-288 | However other processes interleave with a step, when it ends its job is processing only through a new claim, a job completed under its lease stays completed, and no job of the task is left waiting after success or pending after failure |
| Backlog.PassStrandsNothing | src/codememory/backlog.py:206-293 | For every leased job of a pass: its lease is over after its own step, at the end of the pass it is processing only if a later claim took it, and if completed it is still completed |
| Backlog.ClassesCover | src/codememory/backlog.py:219-288 | The four outcome counts exceed the plan exactly by the tasks whose consolidation raised after their extraction was counted |
| Backlog.ExtractionWorker.WorkJob | src/codememory/workers/extraction.py:40-66 | One claimed job: other traffic, then the one write its outcome calls for on that job |
| Backlog.ExtractionWorker.RunOnce | src/codememory/workers/extraction.py:32-74 | The pass is one bulk claim of the oldest available ingest jobs and then the write on each of them in order, interleaved with any legal traffic; the counts are those of the results |
| Backlog.WorkerLeaves | src/codememory/workers/extraction.py:40-66 | The write on a claimed job ends its lease: completed after a success, retry or dead after a failure, and no other row changes |
| Backlog.WorkerStrandsNothing | src/codememory/workers/extraction.py:32-74 | For every job of the claim: after the pass it is processing only if another claim took it after its own write, and a job completed under its lease stays completed |
| Context.UniqueExact | src/codememory/extraction/context.py:129-136 | Every id once, in order of first occurrence, none lost but the blank one |
| Context.ContextAssembler.TakeWithin | src/codememory/extraction/context.py:193-220 | The selection loop takes the first projection and then as many as the budget allows |
| Context.ContextAssembler.Assemble | src/codememory/extraction/context.py:127-220 | The result is an ordered choice of the two ends of the de-duplicated timeline starting with its first event, within `max_events`; untruncated means complete and uncut; a cut window or text selects by the two budgets |
| Context.ContextAssembler.TwoSidedWithin | src/codememory/extraction/context.py:184-210 | With three projections or more the last is kept, and the total is at most max(head budget, first size) plus max(tail budget, last size), the budgets summing to `max_chars` |
| Context.ContextAssembler.CutExactly | src/codememory/extraction/context.py:152-160 | A text over the limit is cut to it and marked; any other is kept whole |
| Context.ContextAssembler.HeadExactly | src/codememory/extraction/context.py:142-188 | The head takes a third of the window, at least two rows and at most 120, and a third of the characters; the tail takes the rest |
| Extraction.ValidateBatch | src/codememory/extraction/service.py:163-228 | Accepts a batch exactly when it matches run, task and provider, its sources are in the context, its candidate ids differ and every piece of evidence is closed |
| Extraction.NamesDiffer | src/codememory/extraction/store.py:750-763 | The names tried for a candidate id never repeat |
| Extraction.AvailableId | src/codememory/extraction/store.py:750-763 | The suffix search always ends with a free id, after at most as many tries as there are ids |
| Extraction.ThreeAttempts | src/codememory/extraction/service.py:84-161 | Without force an input is attempted at most three times; the third failure is dead, and a dead, succeeded or running run is not attempted again |
| Extraction.ExtractionStore.ClearGeneration | src/codememory/extraction/store.py:126-163 | A generation cited by card evidence or a decision is kept, any other is removed |
| Extraction.ExtractionStore.RecordSuccess | src/codememory/extraction/store.py:117-282 | A validated batch becomes the run's next generation: every observation of the provider has a row with its type, statement, aliases, bindings in order, evidence, confidence and uncertainty, under a free id; the ownership it assumes of the context is proved by `Pipeline.ExtractionService.Assemble` |
| Extraction.ExtractionStore.ExtractTask | src/codememory/extraction/service.py:64-161 | The run row follows the attempt rule, a blocked or failed attempt stores nothing, and success stores exactly the validated batch; the ownership it assumes of the context is proved by `Pipeline.ExtractionService.Assemble`; after success every observation has such a row |
| Pipeline.PlayJoined | src/codememory/storage/repository.py:396-517 | Over every interleaving of deliveries, extractions, consolidations, rejections and transitions both stores keep their invariants and the events the memory cites are the ingested ones under the project and task they were ingested with |
| Pipeline.EvidenceWasDelivered | src/codememory/extraction/service.py:163-228 | Every evidence row of every run cites an event that was delivered, is stored as delivered, and belongs to the candidate's task and the card's project |
| Pipeline.EvidencePermanent | src/codememory/extraction/store.py:126-163 | No further traffic removes an evidence row or changes the candidate or the event it cites |
| Pipeline.StoredWasDelivered | src/codememory/storage/repository.py:426-511 | A stored event was there before or is one of the delivered ones, unchanged |
| Pipeline.ReadTimeline | src/codememory/storage/repository.py:567-583 | The query reads each asked row once in its order, and leaves a row out only when the limit is reached and no row read comes after it |
| Pipeline.SelectedRows | src/codememory/extraction/context.py:193-240 | The ids of an assembled context are nonempty and are ids of the rows it was given |
| Pipeline.TimelineOwned | src/codememory/extraction/context.py:222-233 | The project of the first row owns every event of the task's timeline, so every event of the context belongs to the context's project and task |
| Pipeline.ExtractionService.SessionOf | src/codememory/extraction/context.py:225-232 | The session asked for, or else the one session the rows name, or none when they name several or none |
| Pipeline.ExtractionService.Assemble | src/codememory/extraction/context.py:127-268 | Refuses exactly a task without events; otherwise the context is a bounded choice from both ends of the task's timeline, its events all owned by its project and task |
| Pipeline.ExtractionService.ExtractTask | src/codememory/extraction/service.py:64-150 | From any store of the two tables: the run gets one more attempt unless blocked, a well-formed answer is stored as a step the memory allows beside ingest, whose evidence is the task's own ingested events, and nothing else changes either table |
| MemoryTheorems.ApplyInv | src/codememory/consolidation/store.py:907-1065 | Every operation keeps: versions 1..n without gaps, each superseding the one before and only n open; one card per project, kind and key; closed evidence; confidence the maximum over the evidence; a log that leads to the status |
| MemoryTheorems.RunInv | src/codememory/consolidation/store.py:907-1065 | That holds over every mix of extraction, consolidation, quarantine and operator transitions |
| MemoryTheorems.EvidenceClosure | src/codememory/consolidation/service.py:312-336 | Every card evidence row names a stored event of its candidate's own task and project |
| MemoryTheorems.RecordKeepsCited | src/codememory/extraction/store.py:126-163 | Re-extraction never deletes or changes a candidate that evidence or a decision cites |
| MemoryTheorems.StatusStep | src/codememory/consolidation/store.py:1426-1489 | No card goes away, `superseded` is never left, and a card becomes verified or stable only by a transition of that very card |
| MemoryTheorems.SupersededForever | src/codememory/consolidation/store.py:1426-1489 | `superseded` is never left over any run |
| MemoryTheorems.OneDecision | src/codememory/consolidation/store.py:867-905 | At most one decision per candidate and policy |
| MemoryTheorems.DecidedForever | src/codememory/consolidation/store.py:867-905 | A decision survives every later operation and its candidate never changes |
| MemoryTheorems.ConsolidationIdempotent | src/codememory/consolidation/service.py:214-310 | A candidate consolidated once changes nothing when consolidated or quarantined again under the same policy, whatever came between |
| MemoryTheorems.CitedUnlessFallback | src/codememory/consolidation/service.py:421-458 | Over every run: the first decision on a candidate writes its evidence under the decided version exactly when it does not fall back to the card that already holds its key, which is then left as it is |
| Consolidation.RepeatMatchesExactly | src/codememory/consolidation/service.py:338-404 | A candidate with the statement of an active card: if that card is compared, the candidate goes to a card of full score, this one if no other has it; no card is matched exactly when this one shares no target with the candidate while others do and none of those scores |
| Consolidation.RepeatOpensExactly | src/codememory/consolidation/service.py:214-260 | Such a repeat opens another card exactly when the card it repeats shares no target with it while others do, those score too low or the two best of them lie too close to tell apart, and the key of the candidate is free; the card opened is the one of that key |
| Consolidation.ChoiceKind | src/codememory/consolidation/service.py:338-404 | However ties are broken: no match exactly when nothing scores, ambiguous exactly when the two best lie too close |
| Consolidation.RepeatOpensCard | src/codememory/consolidation/service.py:338-404 | A run from the empty store, each step what the matcher decides, after which a candidate repeats the statement of one active card and the target of another, matches neither, and opens a third card |
| Consolidation.JustifiedLegal | src/codememory/consolidation/service.py:338-419 | What the matcher may decide is always a legal operation on an active card |
| PolicyTheorems.MatchedExactly | src/codememory/consolidation/service.py:338-404 | Which cards a candidate matches, in tokens and targets: active ones of its project and type, only those sharing a target where some do, with its normalised statement, or 0.72 of the text where a side has no target, or a shared target and a quarter of the text, or 0.56 of text and targets weighed together |
| PolicyTheorems.RankExactly | src/codememory/consolidation/service.py:338-404 | The score, text and target parts of a rank as shares of tokens and targets |
| PolicyTheorems.BestWins | src/codememory/consolidation/service.py:338-404 | The match taken has the highest score, among equals the most text, then the most targets |
| PolicyTheorems.AmbiguousExactly | src/codememory/consolidation/service.py:405-419 | Ambiguous exactly when a best match scores below 0.9 and a runner-up less than 0.08 behind it |
| PolicyTheorems.MergeExactly | src/codememory/consolidation/service.py:490-503 | A matched candidate is merged exactly when the texts share at least 0.62 of their tokens and, where both have targets, at least 0.35 of them; otherwise it is a new version |
| PolicyTheorems.MergeEffect | src/codememory/consolidation/service.py:490-503 | A merge adds evidence to the current version and raises the confidence; nothing else of any card or version changes |
| PolicyTheorems.VersionEffect | src/codememory/consolidation/service.py:504-546 | A new version has the new statement, keeps the older aliases and bindings before the new ones, supersedes and closes the version before it, and takes a verified or stable card to uncertain |
| PolicyTheorems.CreateEffect | src/codememory/consolidation/service.py:421-458 | A created card says what its candidate says, its first version with exactly the targets of the candidate's bindings |
| PolicyTheorems.ExactRepeatMerges | src/codememory/consolidation/service.py:338-503 | An exact repeat of an active card, in normalised statement, tokens and targets, is always merged: it never adds a version nor changes a status |
| PolicyTheorems.DisjointMatchIsNew | src/codememory/consolidation/service.py:504-546 | A match whose targets are disjoint from the card's always makes a new version and takes a verified or stable card to uncertain |
| PolicyTheorems.CardKeyExactly | src/codememory/consolidation/service.py:80-92 | Two observations share a card id exactly when project, type, normalised statement and target sets agree |
| PolicyTheorems.DecisionKeyExactly | src/codememory/consolidation/store.py:867-905 | A decision is found again exactly for the same policy, candidate and content |
| PolicyTheorems.DistinctBindingsExact | src/codememory/consolidation/store.py:977-1040 | A version keeps the first binding of every role and target, in order |
| PolicyTheorems.PermittedExactly | src/codememory/consolidation/store.py:1426-1489 | The 24 transitions an operator may make, one by one |
| Consolidation.CardStore.CreateCard | src/codememory/consolidation/service.py:421-458 | Inserts card, first version and evidence, or falls back untouched to the card that holds the key |
| Consolidation.CardStore.AppendVersion | src/codememory/consolidation/store.py:977-1040 | Writes the next version, closes the superseded one and moves the pointer |
| Consolidation.CardStore.DemoteEstablished | src/codememory/consolidation/service.py:521-546 | Only a verified or stable card goes back to uncertain, and the step is logged |
| Consolidation.CardStore.Transition | src/codememory/consolidation/store.py:1426-1489 | Moves a card exactly along the transition table with a reason, otherwise changes nothing |
| Consolidation.CardStore.BestOf | src/codememory/consolidation/service.py:338-404 | The first card of the descending match order |
| Consolidation.CardStore.Decide | src/codememory/consolidation/service.py:338-546 | The branch taken is the one the scores, the ambiguity margin and the materiality thresholds justify |
| Consolidation.CardStore.ConsolidateOne | src/codememory/consolidation/service.py:214-310 | Skips exactly a decided candidate, otherwise performs the justified operation and leaves it decided |
| Consolidation.CardStore.RecordQuarantined | src/codememory/consolidation/service.py:169-212 | Records a rejection once and skips a decided candidate |
| Consolidation.CardStore.ConsolidateAll | src/codememory/consolidation/service.py:121-167 | After a pass every candidate is decided; a second pass changes nothing and yields only skips |
| BridgeTheorems.RunAlong | src/codememory/agent_bridge.py:324-427 | A committed batch linked on from any position of the session log retraces the log as far as it goes and then extends it |
| BridgeTheorems.NextOfLog | src/codememory/agent_bridge.py:212-221 | The next write starts at the end of the log, or after event 4999, or at 0 for a task that does not own the session |
| BridgeTheorems.SessionLinear | src/codememory/agent_bridge.py:264-445 | A session written only through start, capture and finish stays numbered 0..n-1 with each event the child of the one before, whatever is accepted or refused and whatever else is ingested beside it, at any size |
| BridgeTheorems.FullSessionRefuses | src/codememory/agent_bridge.py:212-221 | Beyond 5000 events no new capture of the session is ever written |
| BridgeTheorems.CaptureLimitExactly | src/codememory/agent_bridge.py:324-427 | A capture under a new id, with new events whose task, repository and session are its own, is written exactly when the session holds at most 5000 events; all its events are then accepted and continue the log in order, and otherwise nothing changes |
| BridgeTheorems.EvidenceReadBack | src/codememory/agent_bridge.py:387-409 | The read files, the edited files and the validations of a request can be read back from its events, each once and in order |
| BridgeTheorems.CaptureReadBack | src/codememory/agent_bridge.py:387-409 | The parts of a capture say, type by type, exactly what the request says: the intent, every file with its role, the symbols with the rejected candidates, every validation, and the summary with the outcome, each behind its id suffix |
| BridgeTheorems.ListedExactly | src/codememory/agent_bridge.py:393-401 | Different lists of symbols or candidates have different texts |
| BridgeTheorems.PartsInOrder | src/codememory/agent_bridge.py:387-409 | The intent comes first, then files read, files edited, symbols, validations, and the summary last |
| BridgeRetries.CaptureRemembers | src/codememory/agent_bridge.py:372-412 | After a first capture the store holds, up to redaction, an event with each of these values, of the request's own project, task and session, with its producer and context |
| BridgeRetries.EdgeHeld | src/codememory/agent_bridge.py:264-296 | A first start or finish leaves an event with its request's fields, redacted |
| BridgeTheorems.PartsDiffer | src/codememory/agent_bridge.py:387-409 | The events of one capture never share an identity suffix |
| BridgeTheorems.ReuseRefused | src/codememory/agent_bridge.py:324-417 | A capture id already filed never causes a write, and a request whose events differ from the filed ones in identity, type or payload is refused whole |
| BridgeRetries.RetryPrepared | src/codememory/agent_bridge.py:184-198 | A repeated event is taken for the stored one exactly when redacting the request a second time, and what it inherits a third time, changes nothing |
| BridgeRetries.RetryExactly | src/codememory/agent_bridge.py:324-427 | A capture repeated after any growth of the store, at any session size, writes nothing; it answers one duplicate per event exactly when the events filed under its capture id are its own and redaction has settled, or none is filed, the timeline read ends right where the capture began and one redaction settles everything; it is refused otherwise |
| BridgeRetries.RetryAcrossLimit | src/codememory/agent_bridge.py:336-356 | In a linear session a capture whose events run across position 5000 can never be repeated; an unfiled one is taken up again exactly when it began at position 5000 |
| BridgeRetries.OverriddenIdRefused | src/codememory/agent_bridge.py:400-417 | A concrete accepted capture whose retry is refused: its validation result carries another capture_id |
| BridgeRetries.BeginRetry | src/codememory/agent_bridge.py:264-296 | A repeated start is one duplicate exactly when redaction of the request has settled |
| BridgeRetries.FinishRetry | src/codememory/agent_bridge.py:429-466 | A repeated finish is one duplicate exactly when redaction has settled, and writes nothing either way |
| BridgeService.TimelineRead | src/codememory/storage/repository.py:567-583 | The rows read in order until 5000 or all of them are exactly the timeline |
| BridgeService.ReadRows | src/codememory/storage/repository.py:567-583 | The timeline query lists each row once by sequence number |
| BridgeService.AgentBridgeService.Idempotent | src/codememory/agent_bridge.py:184-198 | A new event redacted, the stored one when it says the same, nothing otherwise |
| BridgeService.AgentBridgeService.NextSeq | src/codememory/agent_bridge.py:212-221 | The loop finds where the specification continues |
| BridgeService.AgentBridgeService.FindStart | src/codememory/agent_bridge.py:339-356 | Position, parent, context and time of the first filed event, or the end of the session |
| BridgeService.AgentBridgeService.Build | src/codememory/agent_bridge.py:372-412 | The growing list is every event prepared in order, or nothing as soon as one is refused |
| BridgeService.AgentBridgeService.Capture | src/codememory/agent_bridge.py:324-427 | The service method has exactly the answer and the store of the specification |
| BridgeService.AgentBridgeService.Begin | src/codememory/agent_bridge.py:264-296 | The same for start |
| BridgeService.AgentBridgeService.Finish | src/codememory/agent_bridge.py:429-446 | The same for the event written by finish |
| Maintenance.RunInv | src/codememory/storage/repository.py:730-859 | Over every run: one row per (cycle, input hash), attempts between 1 and the row's maximum, `completed_at` set exactly on completed rows |
| Maintenance.RunAdvances | src/codememory/storage/repository.py:730-859 | Rows never disappear, attempts and maxima never decrease, and `completed` is never left |
| Maintenance.AttemptsAreGrants | src/codememory/storage/repository.py:746-804 | The attempts of a row are exactly the requests granted for its (cycle, hash), and never more than the largest maximum asked for |
| Maintenance.RequestUnchangedExactly | src/codememory/storage/repository.py:755-761 | A request changes nothing exactly when its row is completed or has used up the larger of the two maxima |
| Maintenance.NewHashSupersedes | src/codememory/storage/repository.py:778-804 | A request for a new hash leaves its row the only pending one of its cycle, marks the others superseded and touches nothing else |
| Maintenance.PendingAfterRequest | src/codememory/storage/repository.py:755-804 | Which rows are pending after a request; a second pending row appears exactly when an existing hash is retried beside another pending one |
| Maintenance.OpenedExactly | src/codememory/storage/repository.py:777-803 | A new hash opens a pending row at its first attempt with what was asked and a maximum of at least one |
| Maintenance.RetriedExactly | src/codememory/storage/repository.py:755-776 | A retry is one more attempt under the larger maximum, takes over the turn and the provider, keeps model and metadata where the request names none, and clears the error |
| Maintenance.CompletedExactly | src/codememory/storage/repository.py:811-836 | A completed row has the model, the times and the two counts, never negative, and no error; everything else of it stays |
| Maintenance.FailedExactly | src/codememory/storage/repository.py:838-847 | A completed row is left alone by a failure; any other changes status, error and time and nothing else |
| Maintenance.TwoPending | src/codememory/storage/repository.py:755-776 | Three concrete requests that leave two pending rows in one cycle |
| Maintenance.DerivedNeverClash | src/codememory/cycle.py:570-600 | With ids derived injectively from (cycle, hash) no request ever hits an id of another |
| Maintenance.MaintenanceRepository.RequestRow | src/codememory/storage/repository.py:730-809 | The transaction is `Apply`, and the row returned is the one of the (cycle, hash) |
| Maintenance.MaintenanceRepository.CompleteRequest | src/codememory/storage/repository.py:811-836 | Completes the one row of the (cycle, hash) from any status |
| Maintenance.MaintenanceRepository.FailRequest | src/codememory/storage/repository.py:838-847 | Fails the row unless it is completed |
| Maintenance.MaintenanceRepository.FailPending | src/codememory/storage/repository.py:849-859 | Fails only the latest row of the cycle and only while it is pending |
| Aliases.OwnersPartition | src/codememory/storage/scope.py:16-38 | The window query lists a raw project under exactly the owner the single lookup gives, so the logical projects partition the raw projects with an alias |
| Aliases.AliasStore.RawIdsForLogical | src/codememory/quality/store.py:603-619 | The first-wins loop lists the same raw projects as the window query |
| Aliases.AliasStore.ScopeMap | src/codememory/storage/scope.py:76-88 | The raw-to-logical map agrees with the single lookup on every raw project |
| Aliases.AliasStore.EffectiveOwner | src/codememory/storage/scope.py:61-73 | The ranked lookup returns the owner |
| Aliases.FirstAliasOwns | src/codememory/quality/store.py:379-525 | The first alias of a raw project decides its owner |
| Aliases.WeakerKeepsOwner | src/codememory/quality/store.py:409-427 | A write of a strictly weaker alias type never changes the effective alias or the owner |
| Aliases.EnsureMovesExactly | src/codememory/quality/store.py:409-447 | `ensure` moves a raw project to another owner exactly when its row is not redirected and outranks the effective alias; so only at confidence 0.95 or more and with a type at least as strong. Only a call redirected onto the effective alias itself at an earlier time can do otherwise: then the strongest other row owns, and the owner is neither the old one nor the one asked for exactly when that row says so |
| Aliases.ClockBackMoves | src/codememory/quality/store.py:409-447 | Two concrete aliases and a call at an earlier time that moves the raw project to an owner it does not name |
| Aliases.RankNeverWeakens | src/codememory/quality/store.py:379-525 | Over every run of ensure and register calls the effective alias type never gets weaker |
| Aliases.OwnerHolds | src/codememory/quality/store.py:379-525 | As long as only strictly weaker aliases of a raw project arrive, its owner stays |
| Aliases.OthersUntouched | src/codememory/quality/store.py:428-447 | A write for one raw project never moves another |
| Aliases.WriteExactly | src/codememory/quality/store.py:379-525 | A successful write changes the one row of its key: the root of the call, the larger of the two confidences, the first id and creation time; `ensure` fills a missing value with the root or the raw id |
| Aliases.TypesExactly | src/codememory/storage/scope.py:10-14 | An explicit alias beats every other type, then a repository, a basename and a root; an inferred one beats none |
| Aliases.AliasStore.EnsureLogicalProject | src/codememory/quality/store.py:379-447 | The method is `Apply` on `Ensure`, redirection and upsert included |
| Aliases.AliasStore.RegisterAlias | src/codememory/quality/store.py:463-525 | The method is `Apply` on `Register`, its refusals included |
| Bindings.RecordRow | src/codememory/verification/store.py:266-336 | A call leaves each binding as it was or as its last applied result wrote it over the row read beforehand |
| Bindings.DryRunKeepsBindings | src/codememory/verification/store.py:291-332 | A dry run changes no binding |
| Bindings.StatusIsLastVerdict | src/codememory/verification/store.py:266-336 | After any sequence of runs a binding's status is the last write-mode verdict other than unverified, or its initial status, and its history is the last eight of the entries that counted |
| Bindings.OverlapExactly | src/codememory/verification/store.py:275-332 | Any number of overlapping runs, each from rows read after any number of the earlier writes: the status is the last write-mode verdict exactly unless an unverified result erased one its run had not read and no verdict followed; the history is the last eight entries along the chain of writes read, complete exactly when every run that wrote had read the write before it |
| Bindings.LateRow | src/codememory/verification/store.py:275-332 | Overlapping calls act on every binding as the per-binding rule says |
| Bindings.PromptRun | src/codememory/verification/store.py:275-332 | Runs that read all earlier writes are runs that do not overlap |
| Bindings.VerdictErased | src/codememory/verification/store.py:291-332 | A concrete verified verdict erased by the unverified one of a run that had read before it |
| Bindings.CountersAddUp | src/codememory/verification/store.py:276-335 | Every considered result is counted once as applied or skipped and once by status |
| Bindings.CountersExactly | src/codememory/verification/store.py:276-335 | Each counter is the number of places in the list of results that were considered and applied, considered and not, or considered with that status |
| Bindings.WrittenExactly | src/codememory/verification/store.py:280-333 | Field by field what one result logs and writes: score within the unit interval, all reasons in the check and the first twenty on the binding, and at most eight entries of history, the newest last |
| Bindings.VerificationStore.RecordResults | src/codememory/verification/store.py:266-336 | The batched writer is the fold over all results; with a vanished binding it keeps exactly the batches of 500 before it |
| Manifest.KeepFirstExact | src/codememory/verification/models.py:309-360 | A setdefault loop keeps exactly the first value of every key |
| Manifest.SetDefaults | src/codememory/verification/service.py:170-179 | The loop with a seen set is that function |
| Manifest.SortForgetsOrder | src/codememory/verification/models.py:299-306 | Sorting by (provider, hash) forgets the order of arrival when equal keys mean equal manifests |
| Manifest.NormaliseExactly | src/codememory/verification/service.py:138-181 | Two manifest lists normalise alike exactly when every key is led by the same manifest |
| Manifest.ArrivalOrderForgotten | src/codememory/verification/service.py:138-181 | Unless hashes collide, any order of arrival normalises to the same keys in the same places, with manifests that say the same up to capture time and list order |
| Manifest.CompositeExactly | src/codememory/verification/models.py:291-384 | Unless hashes collide, two orders of arrival give composites that say the same exactly when, wherever no earlier manifest offers a canonical key, the two manifests in that place offer the same entry under it |
| Manifest.RunCompositeExactly | src/codememory/verification/service.py:463-470 | The same for the composite of a verification run, which leaves submitted composites out unless there is nothing else |
| Manifest.MergeForgetsOrder | src/codememory/verification/models.py:291-384 | Unless hashes collide, the composite says the same for every order of arrival when no manifest has two files or two symbols that meet only after normalisation; it is the very same value when equal keys mean equal manifests |
| Manifest.MergedStatusExactly | src/codememory/verification/models.py:361-368 | Ready exactly if some row is ready and any entry is left, unavailable exactly if all are, failed exactly if some row failed and none is better |
| Manifest.MergedFiles | src/codememory/verification/models.py:313-338 | Each canonical path is in the composite once, from the first row that has it |
| Manifest.HeaderExactly | src/codememory/verification/models.py:296-385 | The composite has the first root given, one source a row in order, and of every provider the status and the hash of its last row |
| Manifest.RevisionsExactly | src/codememory/verification/models.py:369-375 | The revisions of the composite are those of its rows, each once and without blanks |
| Manifest.InputsExactly | src/codememory/verification/service.py:463-469 | A run merges what the providers sent, each as often as it was sent, and submitted composites only if nothing else was |
| Manifest.CanonicalExactly | src/codememory/verification/models.py:313-352 | A merged entry keeps what it says under its normalised path and with its source; a symbol without a path stays without one |
| Manifest.CollectFiles | src/codememory/verification/models.py:313-338 | The nested loops with their dictionary compute that list |
| Manifest.ArrivalOrderShows | src/codememory/verification/models.py:160-176 | Two manifests with one content hash whose files collide after path normalisation: arrival order decides what the composite says |
| Lookup.BuildIndex | src/codememory/verification/providers.py:126-143 | The dictionaries hold under every key what a linear scan finds |
| Lookup.ManifestIndex.LookupPath | src/codememory/verification/providers.py:145-151 | Path lookup is the linear scan preferring an existing entry |
| Lookup.ManifestIndex.LookupSymbol | src/codememory/verification/providers.py:153-173 | Symbol lookup is the linear scan: qualified first, then an unambiguous short name |
| Lookup.ShortMatchIsUnambiguous | src/codememory/verification/providers.py:161-173 | A short match exists, has the requested short name, and all its existing rivals with a path lie in the same file |
| Verify.AbsenceOnlyDecidesMissing | src/codememory/verification/service.py:471-476 | A partial or bounded manifest among the usable ones turns a missing verdict into unverified and changes no other |
| Verify.VerifiedMeansFound | src/codememory/verification/service.py:204-425 | Verified: no P4 manifest has the file behind its head revision; an asked-for symbol exists in some submitted manifest and resolves to no other file; where no symbol is asked for, an existing file under the requested key does, unshadowed by a tombstone |
| Verify.VerifiedWithoutFileExactly | src/codememory/verification/service.py:300-309 | A binding of path and symbol is verified without its file being found exactly when its symbol is found and names no file or the requested one, no existing file is found, some provider is usable and none is behind |
| Verify.VerifiedWithoutFile | src/codememory/verification/service.py:300-309 | A concrete manifest without any file that verifies a binding of path and symbol |
| Verify.MissingExactly | src/codememory/verification/service.py:204-425 | Missing, in terms of the submitted manifests: some is usable, every usable one is ready and covers the repository, every existing file under the requested key has a tombstone before it, and the symbol is not found |
| Verify.StatusExactly | src/codememory/verification/service.py:204-425 | Every one of the six statuses, by an if-and-only-if over the submitted manifests: what the composite finds, where, whether a workspace is behind, whether symbols were indexed and whether a manifest is bounded |
| Verify.ScoreExactly | src/codememory/verification/service.py:204-425 | The score by status and by which provider confirms a verified binding: a file by Perforce, together with a symbol also by the code index, a symbol alone by the code index |
| Verify.CoverageExactly | src/codememory/verification/service.py:275-284 | Which declared coverages make absence authoritative and which declarations index symbols, as literal words, and what holds when nothing is declared (src/codememory/verification/models.py:123-131, src/codememory/verification/providers.py:192) |
| Verify.BehindExactly | src/codememory/verification/service.py:195-202 | Only a Perforce entry can be behind, and only with two different nonempty revisions |
| Verify.MismatchExactly | src/codememory/verification/service.py:243-275 | A mismatch is two different nonempty keys: of the path asked for, and of the file the symbol names or else of the file found |
| Verify.MissingSymbols | src/codememory/verification/service.py:204-425 | For a missing binding every existing symbol of the requested full name has a tombstone before it |
| Verify.MissingOverExisting | src/codememory/verification/service.py:204-425 | Two concrete manifests: missing although one of them holds the file, because the other lists it as gone |
| Verify.VerdictTurnsExactly | src/codememory/verification/service.py:138-425 | Unless hashes collide or a manifest has entries that meet only after normalisation: two orders of arrival give different verdicts exactly when some provider is usable, the path is given and no placeholder, and the branch taken turns on whether the found symbol lies in another file or a P4 file is behind |
| Verify.OrderShowsExactly | src/codememory/verification/service.py:138-425 | Under the same conditions the verdict depends on the order of arrival exactly when that branch turns for some choice of one submitted manifest per key |
| Verify.PathOrderExactly | src/codememory/verification/service.py:138-425 | For a binding of a path alone it does exactly when the file is found, some provider is usable, some submitted manifest has the file behind its head revision and every key has a delivery that has not |
| Verify.SelectionLeads | src/codememory/verification/service.py:138-181 | Every choice of one submitted manifest per key is what some order of arrival normalises to |
| Verify.RedeliveryForgotten | src/codememory/verification/service.py:138-181 | Delivering manifests in another order, or again at another time, never changes a verdict |
| Verify.UnambiguousVerdict | src/codememory/verification/service.py:138-181 | Nor does it for list orders, when at most one entry answers to the binding and no manifest has entries that meet only after normalisation |
| Verify.VerdictOrderShows | src/codememory/verification/service.py:204-425 | Two concrete deliveries of one snapshot, its symbols in another order: verified one way round and renamed the other |
| Verify.FoundFileExactly | src/codememory/verification/models.py:313-338 | The composite finds the file exactly when some submitted manifest holds an existing one under the requested key that no tombstone leads |
| Verify.ListedSymbolExactly | src/codememory/verification/models.py:339-360 | The same for symbols under their full key |
| Verify.SameHasSymbol | src/codememory/verification/providers.py:153-173 | Whether a symbol is found does not depend on the order of the symbol list |

## Left out

- Backlog.ExtractionWorker.RunOnce: only jobs of the ingest type are claimed, so the branch that completes a job of another type unread is not modelled.
- Pipeline.ExtractionService.ExtractTask: the quality review that follows a stored generation is not modelled, and the text and projection of a row are parameters.
- Extraction.ExtractionStore.ExtractTask: starting the run row and storing its result are two transactions of the program and one step here; what another process does between them is not modelled.
- Verify.VerdictTurnsExactly: speaks of manifests without entries that meet only after normalisation; with such entries the composite itself depends on the order, as `Manifest.RunCompositeExactly` says.
- Consolidation.CardStore.Decide: scores are reals, so a score within floating-point error of a threshold may fall on the other side in the program.
- Extraction.ThreeAttempts: covers calls without `force`; a forced call is one more attempt of any run, as `ExtractTask` states.
- Outbox.LeaseExclusion: needs a clock that does not go back; the other queue results do not.
- Bindings.StatusIsLastVerdict: speaks of runs that read their bindings after the previous run wrote; `OverlapExactly` says what happens otherwise.
- Strict replay and the place where `max_errors` cuts a replay off, which depends on the batch size; a limited replay is only known to hold the store of a prefix.
- Artifacts, task titles, FTS text, quality evaluations, card links, relation hints and lifecycle timestamps: columns that no modelled branch reads.
- Redaction of artifacts and the `applied` flag, which follows the redacted fields.
- The `logical_projects` table, display names and identity keys.
- `promote_card` and the de-duplication of cards for display: two guarded transitions, and a read-side projection.
- The extraction and consolidation that `finish` starts after writing its event: the same steps as in Extraction and Consolidation.
- Truncation of stored error texts and the stripping of blanks around ids and alias arguments.
- Prompt, agent cycle and learn flows around the maintenance requests: they only sequence calls that are modelled.
- The text order of raw project ids in scope lists, which are sets here.
- The order of redacted field names, and of card aliases in retrieval results.
- The size limits and field types that the request models check before any of this runs.
- Secret patterns, the mock provider, history sanitisation, path and symbol normalisation: parameters.
- SQL text, migrations, backup and restore, HTTP, CLI, web UI, hooks, P4 and provider transports.
