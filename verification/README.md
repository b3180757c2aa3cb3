# Taggit repository sync — Dafny model

A model of the logic in `TaggitService` of the Taggit backend, the service that keeps a
user's catalogue of starred repositories from the code-hosting service. It covers three
pieces:

- **Reconciliation** (`updateUserRepos`). The service takes a snapshot of the repository
  ids stored for the user and fetches the full starred list. It then inserts every starred
  repository whose id is not in the snapshot, in list order. It never deletes anything.
- **The sync job** (`syncUserRepos` plus the progress writes in `updateUserRepos`). The
  service creates a job row and looks it up as the user's most recent unfinished job. It then
  runs the job body:
  - if the access token is missing or empty, it writes one error and stops;
  - otherwise it writes the checkpoints 30%, 60% and 90%, then 100% with
    "Update completed!", then marks the job completed.
- **Paging arithmetic** (`getUserReposPaged`). The service applies the defaults and rejects a
  page size, then a page number, below one. It computes the row offset. If the query throws,
  it returns an empty page built from the defaults.

Files and modules:

- `results.dfy` — `Results`: `Option` (Kotlin's nullable values) and `Result` (a returned
  value or a thrown error).
- `paging.dfy` — `Paging`: `getUserReposPaged` as written (`GetUserReposPaged`, which passes
  the query a 32-bit offset that can wrap around) and with the offset computed exactly
  (`GetUserReposPagedCorrected`). It also models Kotlin's 32-bit `Int`.
- `reconcile.dfy` — `Reconcile`: the diff (`NewRepos`), the loop that computes it
  (`Reconcile`), and the store of a user's repositories abstracted to a set of ids
  (`ApplyInserts`).
- `sync_job.dfy` — `SyncJob`: the job row, the writes the job body performs (`Effect`), the
  collaborators' answers including where they throw (`Environment`), the job body as a trace
  of writes (`JobBody`), and `syncUserRepos` over a world of job rows and per-user id sets.
- `sync_job_properties.dfy` — `SyncJobProperties`: lemmas about the job body's traces.
- `sync_user_repos_properties.dfy` — `SyncUserReposProperties`: lemmas about a whole
  `syncUserRepos` call.

How the model represents the source:

- Progress is an integer percentage. The service's `0.3F`, `0.6F`, `0.9F` and `1.0F` become
  30, 60, 90 and 100.
- The coroutine started by `GlobalScope.launch` is modelled as one sequential run of its body.
- Database access and the hosting service's HTTP calls are inputs of the model:
  - the stored ids are a set in the world;
  - the fetched list is `Environment.starred`, which is `None` when the fetch throws;
  - a throwing local read is `Environment.localReadFails`;
  - a throwing insert is `Environment.failingInsert`.
- Exceptions inside `updateUserRepos` are caught and only logged
  (`TaggitService.kt:129-132`). So a fetch or insert failure cuts the trace short, and the
  job still reaches 100% and is completed with no error. Nothing records that the
  reconciliation failed.
- The default page number and page size come from constants whose values are not part of
  this model. They are a `Defaults` parameter.
- A new job row has progress 0, an empty message, no error, and is not completed. A job is
  "unfinished" when it is not completed. The data-access layer is not part of this model, so
  both of these are assumptions.
- If the lookup after creation finds no unfinished job, `SyncUserRepos` returns
  `JobNotFound`. `SyncCreatesOneJob` shows that this never happens in a sequential run.
- The snapshot of stored ids is taken once. If the starred list holds two entries with the
  same new id, both are inserted, as in the source (`NewReposCounts`). `NewReposDistinct`
  shows that distinct remote ids give distinct inserts.

## Model

| member | source | states |
|---|---|---|
| `Paging.Wrap32` | src/main/kotlin/io/taggit/services/TaggitService.kt:76 | Kotlin `Int` arithmetic: the result is congruent to the exact value modulo 2^32, and equals it when it fits 32 bits |
| `Paging.Validate` | src/main/kotlin/io/taggit/services/TaggitService.kt:64-74 | after defaulting, a page size ≤ 0 gives the page-size error whatever the page number; otherwise a page number ≤ 0 gives the page-number error; otherwise the accepted pair is exactly the defaulted (page number, page size), both at least 1 |
| `Paging.PageWindow` | src/main/kotlin/io/taggit/services/TaggitService.kt:64-77 | rejects page size ≤ 0 with the page-size error and checks it first, then rejects page number ≤ 0; on success limit = page size ≥ 1, 0 ≤ offset < 2^62, the offset is a multiple of the limit, the page number is recovered as offset / limit + 1, and page 1 gives offset 0 |
| `Paging.PageWindowAsWritten` | src/main/kotlin/io/taggit/services/TaggitService.kt:71-77 | the service's own window: the same errors and limit as `PageWindow`, with the offset wrapped into 32 bits |
| `Paging.AsWrittenAgreesWithoutOverflow` | src/main/kotlin/io/taggit/services/TaggitService.kt:71-77 | whenever the true offset fits a 32-bit `Int`, the service computes the correct window |
| `Paging.OffsetOverflowExample` | src/main/kotlin/io/taggit/services/TaggitService.kt:76 | page number 2147483647 with page size 2 has true offset 4294967292 but the service computes -4 |
| `Paging.GetUserReposPaged` | src/main/kotlin/io/taggit/services/TaggitService.kt:63-85 | the validation errors propagate, page-size error first; otherwise the query runs with limit = size and the offset (page - 1) × size wrapped into 32 bits, as Kotlin computes it; its page is returned, and if it throws the result is an empty page with the default page number and size and total 0 |
| `Paging.GetUserReposPagedCorrected` | src/main/kotlin/io/taggit/services/TaggitService.kt:63-85 | the same errors and fallback, but the query runs with the exact offset (page - 1) × size, which is never negative |
| `Reconcile.NewRepos` | src/main/kotlin/io/taggit/services/TaggitService.kt:114-128 | a repository is inserted if and only if it is in the remote list and its id is not in the snapshot; a snapshot holding every remote id gives no inserts |
| `Reconcile.Reconcile` | src/main/kotlin/io/taggit/services/TaggitService.kt:121-128 | the single pass of the `forEach` loop collects exactly the inserts `NewRepos` describes, each from the remote list and absent from the snapshot |
| `Reconcile.ApplyInserts` | src/main/kotlin/io/taggit/services/TaggitService.kt:121-128 | inserting never removes an id; afterwards the store holds exactly the old ids plus the inserted ids |
| `Reconcile.ReconcileExample` | src/main/kotlin/io/taggit/services/TaggitService.kt:114-128 | stored ids {1, 2} with remote list [1, 3, 4] insert 3 then 4 |
| `Reconcile.NewReposCounts` | src/main/kotlin/io/taggit/services/TaggitService.kt:121-128 | each remote entry with a new id is inserted exactly as often as it occurs in the remote list, so duplicates are inserted twice; entries with a stored id are never inserted |
| `Reconcile.NewReposInOrder` | src/main/kotlin/io/taggit/services/TaggitService.kt:121-128 | the inserts keep the remote list's order: they are a subsequence of it |
| `Reconcile.NewReposDistinct` | src/main/kotlin/io/taggit/services/TaggitService.kt:121-128 | if the remote ids are distinct, no id is inserted twice |
| `Reconcile.ReconcileCoversRemote` | src/main/kotlin/io/taggit/services/TaggitService.kt:114-128 | a completed reconciliation leaves exactly the old ids plus every remote id |
| `Reconcile.ReconcileIdempotent` | src/main/kotlin/io/taggit/services/TaggitService.kt:114-125 | a second reconciliation against the same remote list, after a completed one, inserts nothing |
| `SyncJob.InsertEffects` | src/main/kotlin/io/taggit/services/TaggitService.kt:121-128 | one insert write per repository, in list order |
| `SyncJob.Committed` | src/main/kotlin/io/taggit/services/TaggitService.kt:121-132 | the inserts that take effect are a prefix of the insert list; all of them when no insert throws (no failing position, or one past the end of the list), and exactly those before the throwing one otherwise |
| `SyncJob.CreateJob` | src/main/kotlin/io/taggit/services/TaggitService.kt:88 | creating a job appends one fresh row for the user and keeps every earlier row |
| `SyncJob.MostRecentUnfinished` | src/main/kotlin/io/taggit/services/TaggitService.kt:89 | finds the newest job of the user that is not completed (no later one qualifies), or reports that none exists |
| `SyncUserReposProperties.LookupFindsCreatedJob` | src/main/kotlin/io/taggit/services/TaggitService.kt:88-89 | the lookup right after creation returns the job just created |
| `SyncJobProperties.UpdateUserReposTrace` | src/main/kotlin/io/taggit/services/TaggitService.kt:110-133 | `updateUserRepos` writes 30, then 60 unless the local read throws, then 90 unless the fetch throws; it commits the inserts before any failing one; it leaves the job at the last checkpoint it reached |
| `SyncJobProperties.UpdateUserReposFetched` | src/main/kotlin/io/taggit/services/TaggitService.kt:113-128 | when both reads succeed, the checkpoints are 30, 60 and 90, followed by the committed inserts |
| `SyncJobProperties.UpdateUserReposFetchFails` | src/main/kotlin/io/taggit/services/TaggitService.kt:113-118 | when the fetch throws, the checkpoints are 30 and 60, and nothing is inserted |
| `SyncJobProperties.UpdateUserReposWrites` | src/main/kotlin/io/taggit/services/TaggitService.kt:110-133 | inside `updateUserRepos` only progress writes and inserts happen |
| `SyncJobProperties.MissingTokenBody` | src/main/kotlin/io/taggit/services/TaggitService.kt:91-96 | a null or empty token gives exactly one write, the error "No user access token found, this is possibly due to user being deleted"; nothing is inserted and the job is not completed |
| `SyncJobProperties.TokenBodyShape` | src/main/kotlin/io/taggit/services/TaggitService.kt:97-101 | with a token the body ends with the 100% write and then the completion, and it never writes an error |
| `SyncJobProperties.CompletionRun` | src/main/kotlin/io/taggit/services/TaggitService.kt:99-100 | the final two writes set progress 100 and "Update completed!", then mark the job completed |
| `SyncJobProperties.TokenBody` | src/main/kotlin/io/taggit/services/TaggitService.kt:98-100 | with a token the job ends at 100%, "Update completed!" and completed, even when a collaborator threw; the store gains exactly the committed inserts |
| `SyncJobProperties.ReachedCheckpointsCases` | src/main/kotlin/io/taggit/services/TaggitService.kt:113-119 | the checkpoints `updateUserRepos` writes are 30 if the local read throws, 30 and 60 if the fetch throws, and 30, 60, 90 otherwise |
| `SyncJobProperties.CommittedInsertsCases` | src/main/kotlin/io/taggit/services/TaggitService.kt:114-132 | `updateUserRepos` inserts nothing if the local read or the fetch throws; otherwise it inserts the diff up to the first throwing insert |
| `SyncJobProperties.CheckpointSequences` | src/main/kotlin/io/taggit/services/TaggitService.kt:113-119 | each possible checkpoint sequence is non-decreasing and a subsequence of 30, 60, 90, 100 |
| `SyncJobProperties.ProgressNonDecreasing` | src/main/kotlin/io/taggit/services/TaggitService.kt:99-119 | every run's progress writes are non-decreasing and follow the order 30, 60, 90, 100 |
| `SyncJobProperties.InsertsArePrefix` | src/main/kotlin/io/taggit/services/TaggitService.kt:121-132 | the inserts of a run are a prefix of the full insert list, and the whole list when nothing throws |
| `SyncJobProperties.RunProgress` | src/main/kotlin/io/taggit/services/TaggitService.kt:99-119 | after any sequence of writes, the job shows the last progress written, or its initial progress |
| `SyncJobProperties.PolledStep` | src/main/kotlin/io/taggit/services/TaggitService.kt:99-119 | with non-decreasing progress writes, one more write never lowers the polled progress |
| `SyncJobProperties.PolledProgressNonDecreasing` | src/main/kotlin/io/taggit/services/TaggitService.kt:99-119 | polling a job at two moments of its run never shows progress going down |
| `SyncUserReposProperties.SyncCreatesOneJob` | src/main/kotlin/io/taggit/services/TaggitService.kt:87-104 | a sync returns the id of the one job it appended; it keeps earlier jobs and other users' repositories, and never removes a stored id |
| `SyncUserReposProperties.SyncMissingToken` | src/main/kotlin/io/taggit/services/TaggitService.kt:91-96 | with a missing token the returned job carries only the error message, is not completed, and the user's repositories are unchanged |
| `SyncUserReposProperties.SyncWithToken` | src/main/kotlin/io/taggit/services/TaggitService.kt:97-101 | with a token the returned job ends at 100%, "Update completed!", completed and without error, even if reconciliation failed; the user's ids gain exactly the committed inserts |
| `SyncUserReposProperties.SyncFaultFree` | src/main/kotlin/io/taggit/services/TaggitService.kt:114-128 | a sync in which nothing throws leaves the old ids plus every remote id |
| `SyncUserReposProperties.SyncRerunInsertsNothing` | src/main/kotlin/io/taggit/services/TaggitService.kt:114-125 | after a sync in which nothing threw, a second sync inserts nothing and leaves the ids unchanged, whatever its token and faults, as long as its fetch returns the same remote list or throws |

## Left out

- `loginOrRegister`, `getUser`, `updateUser`, `deleteUser`, `addTag`, `deleteTag`, `getAllTags`, `searchUserRepoByTags` and `getsyncJob`: each only passes the call on to the data-access layer or the hosting-service client, which are not part of this model.
- Concurrency: jobs launched by `GlobalScope.launch` may interleave with each other. The source has no guard against that. The model runs one job body to its end.
- Database access: rows and columns are reduced to a set of repository ids per user and a sequence of job rows. These job-row calls are assumed never to throw: `createNewRepoSyncJob` and `getMostRecentUnfinishedRepoSyncJob` (a throw there would reach the caller of `syncUserRepos`, so `SyncCreatesOneJob`'s success rests on this), `updateRepoSyncJobProgressAndStatus` for the 100% write and `updateRepoSyncJobError` (both are outside the `try`), and `completeRepoSyncJob` (the completion in `SyncWithToken` and `TokenBody` rests on this). The progress writes inside the `try` are also assumed never to throw.
- `notContains` (TaggitService.kt:122) comes from a helper file that is not part of this model. It is taken to mean "the snapshot does not contain this id": `NewRepos` keeps an entry exactly when its id is not in the snapshot.
- `insertRepo` (TaggitService.kt:125) is assumed to make the inserted repository's id appear among the `repoId`s that `getUserRepos` returns on the next call. `Step` adds the id to the user's set. `ReconcileCoversRemote`, `ReconcileIdempotent`, `SyncFaultFree` and `SyncRerunInsertsNothing` rest on this.
- `updateRepoSyncJobError` (TaggitService.kt:93) is assumed to write only the job's error column. `SyncMissingToken`'s claim that the job keeps progress 0, an empty message and is not completed rests on this.
- The token lookup is assumed never to throw. If it did, the job row would get no write at all.
- The throwing insert is assumed to write nothing. Nothing after it runs.
- HTTP calls to the hosting service are replaced by the `Environment` input.
- Logging and `println`.
- Floating-point progress: the values are integer percentages.
- The values of the default page number and page size: they are a parameter.
- The contents of a page: the query's page is returned unchanged, and what it holds is decided by the data-access layer, which is not part of this model.

## Findings

| source | as written | input that shows it | evidently intended | confidence | as-written member | corrected member |
|---|---|---|---|---|---|---|
| src/main/kotlin/io/taggit/services/TaggitService.kt:76 | `(it - 1).times(limit)` multiplies two 32-bit `Int`s, so the offset wraps around | page number 2147483647, page size 2: the offset is -4 instead of 4294967292 | a non-negative offset (page - 1) × size, as computed in 64-bit arithmetic | not executed; follows from Kotlin's `Int` overflow rules | `Paging.PageWindowAsWritten` and `Paging.GetUserReposPaged`, exhibited by `Paging.OffsetOverflowExample` | `Paging.PageWindow` and `Paging.GetUserReposPagedCorrected` (0 ≤ offset, proved) |
