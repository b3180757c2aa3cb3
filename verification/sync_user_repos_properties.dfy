/** Properties of a whole `syncUserRepos` call: the job it returns and what it does to the store. */
module SyncUserReposProperties {
  import opened Results
  import opened Reconcile
  import opened SyncJob
  import opened SyncJobProperties

  /** The lookup right after creation finds the job just created. */
  lemma LookupFindsCreatedJob(jobs: seq<Job>, user: UserId)
    ensures MostRecentUnfinished(CreateJob(jobs, user), user) == Some(|jobs|)
  {
  }

  /**
    A sync always returns the id of the job it created, appends exactly that
    job, leaves every earlier job and every other user's repositories alone,
    and never removes a stored id.
  */
  lemma SyncCreatesOneJob(w: World, user: UserId, env: Environment)
    ensures SyncUserRepos(w, user, env).Success?
    ensures var (w', id) := SyncUserRepos(w, user, env).value;
      && id == |w.jobs|
      && |w'.jobs| == |w.jobs| + 1
      && w'.jobs[..|w.jobs|] == w.jobs
      && w'.jobs[id].userId == user
      && ReposOf(w, user) <= ReposOf(w', user)
      && (forall u :: u != user ==> ReposOf(w', u) == ReposOf(w, u))
  {
    LookupFindsCreatedJob(w.jobs, user);
    var stored := ReposOf(w, user);
    var s := State(NewJob(user), stored);
    if MissingToken(env.token) {
      MissingTokenBody(env, s);
    } else {
      TokenBody(env, s);
    }
  }

  /**
    Missing or empty token: the new job carries exactly the error message,
    no progress, no completion, and the user's repositories are unchanged.
  */
  lemma SyncMissingToken(w: World, user: UserId, env: Environment)
    requires MissingToken(env.token)
    ensures SyncUserRepos(w, user, env).Success?
    ensures var (w', id) := SyncUserRepos(w, user, env).value;
      && w'.jobs[id] == Job(user, 0, "", Some(MissingTokenMessage), false)
      && ReposOf(w', user) == ReposOf(w, user)
  {
    LookupFindsCreatedJob(w.jobs, user);
    MissingTokenBody(env, State(NewJob(user), ReposOf(w, user)));
  }

  /**
    With a token the new job ends at 100%, "Update completed!", completed and
    without error, even when a collaborator threw; the user's ids gain exactly
    the committed inserts.
  */
  lemma SyncWithToken(w: World, user: UserId, env: Environment)
    requires !MissingToken(env.token)
    ensures SyncUserRepos(w, user, env).Success?
    ensures var (w', id) := SyncUserRepos(w, user, env).value;
      && w'.jobs[id] == Job(user, 100, CompletedMessage, None, true)
      && ReposOf(w', user) == ReposOf(w, user) + IdsOf(CommittedInserts(env, ReposOf(w, user)))
  {
    LookupFindsCreatedJob(w.jobs, user);
    TokenBody(env, State(NewJob(user), ReposOf(w, user)));
  }

  /** A sync where nothing throws leaves the old ids plus every remote id. */
  lemma SyncFaultFree(w: World, user: UserId, env: Environment)
    requires !MissingToken(env.token) && FaultFree(env)
    ensures ReposOf(SyncUserRepos(w, user, env).value.0, user) == ReposOf(w, user) + IdsOf(env.starred.value)
  {
    SyncWithToken(w, user, env);
    CommittedInsertsCases(env, ReposOf(w, user));
    ReconcileCoversRemote(env.starred.value, ReposOf(w, user));
  }

  /**
    Running a second sync after a sync where nothing threw inserts nothing and
    leaves the user's ids as they were, whatever the second run's token and
    faults, provided its fetch returns the same remote list or throws.
  */
  lemma SyncRerunInsertsNothing(w: World, user: UserId, env: Environment, env2: Environment)
    requires !MissingToken(env.token) && FaultFree(env)
    requires env2.starred.None? || env2.starred == env.starred
    ensures var w1 := SyncUserRepos(w, user, env).value.0;
      && Inserted(JobBody(env2, ReposOf(w1, user))) == []
      && ReposOf(SyncUserRepos(w1, user, env2).value.0, user) == ReposOf(w1, user)
  {
    var remote := env.starred.value;
    var stored := ReposOf(w, user);
    SyncFaultFree(w, user, env);
    var w1 := SyncUserRepos(w, user, env).value.0;
    var stored1 := ReposOf(w1, user);
    ReconcileCoversRemote(remote, stored);
    ReconcileIdempotent(remote, stored);
    assert stored1 == ApplyInserts(stored, NewRepos(remote, stored));
    var s1 := State(NewJob(user), stored1);
    if MissingToken(env2.token) {
      MissingTokenBody(env2, s1);
      SyncMissingToken(w1, user, env2);
    } else {
      CommittedInsertsCases(env2, stored1);
      assert CommittedInserts(env2, stored1) == [];
      TokenBody(env2, s1);
      SyncWithToken(w1, user, env2);
    }
  }
}
