/**
  The repository sync job of `TaggitService.syncUserRepos` and the progress
  writes of `updateUserRepos`.

  The launched coroutine is modelled as one sequential run of its body. The
  body is described by the trace of store writes it performs (`Effect`s),
  which `Run` applies to the job record and to the user's repository-id set.
  What the collaborators answer, including where they throw, is an explicit
  `Environment`.
*/
module SyncJob {
  import opened Results
  import opened Reconcile

  type UserId = int

  /** A job's id: its position in the job store, in creation order. */
  type JobId = nat

  /** A sync job row. Progress is an integer percentage (the service writes 0.3F as 30). */
  datatype Job = Job(userId: UserId, progress: nat, message: string, error: Option<string>, completed: bool)

  /** A freshly created job row. */
  function NewJob(user: UserId): Job
  {
    Job(user, 0, "", None, false)
  }

  const MissingTokenMessage: string := "No user access token found, this is possibly due to user being deleted"
  const CheckingMessage: string := "Checking for pre syncd repos"
  const PullingMessage: string := "Pulling current stargazing data from Github"
  const UpdatingMessage: string := "Updating syncd repos with new stargazing data"
  const CompletedMessage: string := "Update completed!"

  /** One write the job body performs. */
  datatype Effect =
    | WriteProgress(message: string, percent: nat)   // updateRepoSyncJobProgressAndStatus
    | WriteError(message: string)                    // updateRepoSyncJobError
    | InsertRepo(repo: RemoteRepo)                   // insertRepo
    | CompleteJob                                    // completeRepoSyncJob

  /**
    What the collaborators answer during one run.
    - `token`: the stored access token, `None` for `null`;
    - `localReadFails`: reading the user's stored repositories throws;
    - `starred`: the fetched starred list, `None` when the fetch throws;
    - `failingInsert`: `Some(k)` when the insert at position `k` of the insert list throws.
  */
  datatype Environment = Environment(
    token: Option<string>,
    localReadFails: bool,
    starred: Option<seq<RemoteRepo>>,
    failingInsert: Option<nat>)

  /** Kotlin's `isNullOrEmpty` on the token. */
  predicate MissingToken(token: Option<string>)
  {
    token.None? || token.value == ""
  }

  /** No collaborator throws inside the reconciliation. */
  predicate FaultFree(env: Environment)
  {
    !env.localReadFails && env.starred.Some? && env.failingInsert.None?
  }

  /** The job row and the user's repository ids, as the job body sees them. */
  datatype State = State(job: Job, repos: set<RepoId>)

  function Step(s: State, e: Effect): State
  {
    match e
    case WriteProgress(m, p) => s.(job := s.job.(message := m, progress := p))
    case WriteError(m) => s.(job := s.job.(error := Some(m)))
    case InsertRepo(repo) => s.(repos := s.repos + {repo.id})
    case CompleteJob => s.(job := s.job.(completed := true))
  }

  /** Applies a trace of writes in order. */
  function Run(s: State, trace: seq<Effect>): State
    decreases |trace|
  {
    if |trace| == 0 then s
    else Step(Run(s, trace[..|trace| - 1]), trace[|trace| - 1])
  }

  /** The progress percentages a trace writes, in order. */
  function Progresses(trace: seq<Effect>): seq<nat>
    decreases |trace|
  {
    if |trace| == 0 then []
    else
      var e := trace[|trace| - 1];
      Progresses(trace[..|trace| - 1]) + (if e.WriteProgress? then [e.percent] else [])
  }

  /** The repositories a trace inserts, in order. */
  function Inserted(trace: seq<Effect>): seq<RemoteRepo>
    decreases |trace|
  {
    if |trace| == 0 then []
    else
      var e := trace[|trace| - 1];
      Inserted(trace[..|trace| - 1]) + (if e.InsertRepo? then [e.repo] else [])
  }

  /** One insert write per repository, in order. */
  function InsertEffects(repos: seq<RemoteRepo>): (r: seq<Effect>)
    ensures |r| == |repos|
    ensures forall i :: 0 <= i < |r| ==> r[i] == InsertRepo(repos[i])
  {
    seq(|repos|, i requires 0 <= i < |repos| => InsertRepo(repos[i]))
  }

  /**
    The inserts that take effect: all of them, or those before the one that
    throws (the throwing insert is assumed to write nothing).
  */
  function Committed(inserts: seq<RemoteRepo>, failingInsert: Option<nat>): (r: seq<RemoteRepo>)
    ensures r <= inserts
    ensures failingInsert.None? || failingInsert.value >= |inserts| ==> r == inserts
    ensures failingInsert.Some? && failingInsert.value < |inserts| ==> |r| == failingInsert.value
  {
    match failingInsert
    case None => inserts
    case Some(k) => if k < |inserts| then inserts[..k] else inserts
  }

  /**
    The writes of `updateUserRepos`. Everything runs inside one `try`; an
    exception ends the block early and is only logged, so the trace is cut
    short and nothing signals the failure.
  */
  function UpdateUserRepos(env: Environment, stored: set<RepoId>): seq<Effect>
  {
    [WriteProgress(CheckingMessage, 30)] +
    if env.localReadFails then []
    else
      [WriteProgress(PullingMessage, 60)] +
      match env.starred
      case None => []
      case Some(remote) =>
        [WriteProgress(UpdatingMessage, 90)] +
        InsertEffects(Committed(NewRepos(remote, stored), env.failingInsert))
  }

  /** The progress percentages `updateUserRepos` writes before it stops. */
  function ReachedCheckpoints(env: Environment, stored: set<RepoId>): seq<nat>
  {
    Progresses(UpdateUserRepos(env, stored))
  }

  /** The repositories `updateUserRepos` inserts before it stops. */
  function CommittedInserts(env: Environment, stored: set<RepoId>): seq<RemoteRepo>
  {
    Inserted(UpdateUserRepos(env, stored))
  }

  /** The two writes after `updateUserRepos` returns: 100% with the completion message, then completion. */
  function CompletionWrites(): seq<Effect>
  {
    [WriteProgress(CompletedMessage, 100), CompleteJob]
  }

  /** The body of the launched coroutine in `syncUserRepos`. */
  function JobBody(env: Environment, stored: set<RepoId>): seq<Effect>
  {
    if MissingToken(env.token) then [WriteError(MissingTokenMessage)]
    else UpdateUserRepos(env, stored) + CompletionWrites()
  }

  /** The job rows (in creation order) and each user's stored repository ids. */
  datatype World = World(jobs: seq<Job>, repos: map<UserId, set<RepoId>>)

  /** The ids stored for a user; none if the user has no entry. */
  function ReposOf(w: World, user: UserId): set<RepoId>
  {
    if user in w.repos then w.repos[user] else {}
  }

  /** `createNewRepoSyncJob`: appends a fresh row for the user. */
  function CreateJob(jobs: seq<Job>, user: UserId): (r: seq<Job>)
    ensures |r| == |jobs| + 1 && r[..|jobs|] == jobs
    ensures r[|jobs|] == NewJob(user)
  {
    jobs + [NewJob(user)]
  }

  /** A job that belongs to the user and is not completed. */
  predicate Unfinished(j: Job, user: UserId)
  {
    j.userId == user && !j.completed
  }

  /** `getMostRecentUnfinishedRepoSyncJob`: the newest unfinished job of the user, if any. */
  function MostRecentUnfinished(jobs: seq<Job>, user: UserId): (r: Option<JobId>)
    ensures r.Some? ==> r.value < |jobs| && Unfinished(jobs[r.value], user)
    ensures r.Some? ==> forall k :: r.value < k < |jobs| ==> !Unfinished(jobs[k], user)
    ensures r.None? ==> forall k :: 0 <= k < |jobs| ==> !Unfinished(jobs[k], user)
    decreases |jobs|
  {
    if |jobs| == 0 then None
    else if Unfinished(jobs[|jobs| - 1], user) then Some(|jobs| - 1)
    else MostRecentUnfinished(jobs[..|jobs| - 1], user)
  }

  /** The lookup after creation finds no job. */
  datatype SyncError = JobNotFound

  /**
    `syncUserRepos`: create a job, look it up, run the job body against it
    and the user's stored ids, and return the job's id.
  */
  function SyncUserRepos(w: World, user: UserId, env: Environment): (r: Result<(World, JobId), SyncError>)
  {
    var jobs := CreateJob(w.jobs, user);
    match MostRecentUnfinished(jobs, user)
    case None => Failure(JobNotFound)
    case Some(id) =>
      var stored := ReposOf(w, user);
      var final := Run(State(jobs[id], stored), JobBody(env, stored));
      Success((World(jobs[id := final.job], w.repos[user := final.repos]), id))
  }
}
