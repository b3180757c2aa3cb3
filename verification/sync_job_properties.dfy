/** Properties of the sync job: checkpoint order, error path, inserts, completion. */
module SyncJobProperties {
  import opened Results
  import opened Reconcile
  import opened SyncJob

  /** Every element is at most the next one. */
  predicate NonDecreasing(s: seq<nat>)
  {
    forall i, j :: 0 <= i < j < |s| ==> s[i] <= s[j]
  }

  /** Applying two traces one after the other is applying their concatenation. */
  lemma {:induction false} RunAppend(s: State, a: seq<Effect>, b: seq<Effect>)
    ensures Run(s, a + b) == Run(Run(s, a), b)
    decreases |b|
  {
    if |b| > 0 {
      assert (a + b)[..|a + b| - 1] == a + b[..|b| - 1];
      RunAppend(s, a, b[..|b| - 1]);
    } else {
      assert a + b == a;
    }
  }

  /** The progress writes of a concatenation are those of each part. */
  lemma {:induction false} ProgressesAppend(a: seq<Effect>, b: seq<Effect>)
    ensures Progresses(a + b) == Progresses(a) + Progresses(b)
    decreases |b|
  {
    if |b| > 0 {
      assert (a + b)[..|a + b| - 1] == a + b[..|b| - 1];
      ProgressesAppend(a, b[..|b| - 1]);
    } else {
      assert a + b == a;
    }
  }

  /** The inserts of a concatenation are those of each part. */
  lemma {:induction false} InsertedAppend(a: seq<Effect>, b: seq<Effect>)
    ensures Inserted(a + b) == Inserted(a) + Inserted(b)
    decreases |b|
  {
    if |b| > 0 {
      assert (a + b)[..|a + b| - 1] == a + b[..|b| - 1];
      InsertedAppend(a, b[..|b| - 1]);
    } else {
      assert a + b == a;
    }
  }

  /** Insert writes write no progress. */
  lemma {:induction false} InsertEffectsProgress(repos: seq<RemoteRepo>)
    ensures Progresses(InsertEffects(repos)) == []
    decreases |repos|
  {
    var t := InsertEffects(repos);
    if |repos| > 0 {
      assert t[..|t| - 1] == InsertEffects(repos[..|repos| - 1]);
      InsertEffectsProgress(repos[..|repos| - 1]);
    }
  }

  /** Insert writes insert exactly the given repositories, in order. */
  lemma {:induction false} InsertEffectsInserted(repos: seq<RemoteRepo>)
    ensures Inserted(InsertEffects(repos)) == repos
    decreases |repos|
  {
    var t := InsertEffects(repos);
    if |repos| > 0 {
      var prior := repos[..|repos| - 1];
      assert t[..|t| - 1] == InsertEffects(prior);
      InsertEffectsInserted(prior);
      assert repos == prior + [repos[|repos| - 1]];
    }
  }

  /** Insert writes touch only the id set, adding exactly the inserted ids. */
  lemma {:induction false} InsertEffectsStore(s: State, repos: seq<RemoteRepo>)
    ensures Run(s, InsertEffects(repos)) == State(s.job, ApplyInserts(s.repos, repos))
    decreases |repos|
  {
    var t := InsertEffects(repos);
    if |repos| > 0 {
      var prior := repos[..|repos| - 1];
      assert t[..|t| - 1] == InsertEffects(prior);
      InsertEffectsStore(s, prior);
      assert t[|t| - 1] == InsertRepo(repos[|repos| - 1]);
    }
  }

  /** Insert writes touch only the id set, adding exactly the inserted ids, and write no progress. */
  lemma InsertEffectsRun(s: State, repos: seq<RemoteRepo>)
    ensures Progresses(InsertEffects(repos)) == []
    ensures Inserted(InsertEffects(repos)) == repos
    ensures Run(s, InsertEffects(repos)) == State(s.job, ApplyInserts(s.repos, repos))
  {
    InsertEffectsProgress(repos);
    InsertEffectsInserted(repos);
    InsertEffectsStore(s, repos);
  }

  /** A single write, seen as a trace. */
  lemma Single(s: State, e: Effect)
    ensures Run(s, [e]) == Step(s, e)
    ensures Progresses([e]) == (if e.WriteProgress? then [e.percent] else [])
    ensures Inserted([e]) == (if e.InsertRepo? then [e.repo] else [])
  {
  }

  /** A write followed by a trace. */
  lemma Cons(s: State, e: Effect, t: seq<Effect>)
    ensures Run(s, [e] + t) == Run(Step(s, e), t)
    ensures Progresses([e] + t) == (if e.WriteProgress? then [e.percent] else []) + Progresses(t)
    ensures Inserted([e] + t) == (if e.InsertRepo? then [e.repo] else []) + Inserted(t)
  {
    Single(s, e);
    RunAppend(s, [e], t);
    ProgressesAppend([e], t);
    InsertedAppend([e], t);
  }

  /** The case where every read succeeds: three checkpoints, then the committed inserts. */
  lemma UpdateUserReposFetched(env: Environment, s: State)
    requires !env.localReadFails && env.starred.Some?
    ensures Progresses(UpdateUserRepos(env, s.repos)) == [30, 60, 90]
    ensures Inserted(UpdateUserRepos(env, s.repos)) == Committed(NewRepos(env.starred.value, s.repos), env.failingInsert)
    ensures Run(s, UpdateUserRepos(env, s.repos)) ==
      State(s.job.(progress := 90, message := UpdatingMessage),
            ApplyInserts(s.repos, Committed(NewRepos(env.starred.value, s.repos), env.failingInsert)))
  {
    var e30, e60, e90 := WriteProgress(CheckingMessage, 30), WriteProgress(PullingMessage, 60), WriteProgress(UpdatingMessage, 90);
    var committed := Committed(NewRepos(env.starred.value, s.repos), env.failingInsert);
    var ins := InsertEffects(committed);
    var s30 := Step(s, e30);
    var s60 := Step(s30, e60);
    var s90 := Step(s60, e90);
    assert UpdateUserRepos(env, s.repos) == [e30] + ([e60] + ([e90] + ins));
    InsertEffectsRun(s90, committed);
    Cons(s60, e90, ins);
    Cons(s30, e60, [e90] + ins);
    Cons(s, e30, [e60] + ([e90] + ins));
  }

  /** The case where the fetch throws: two checkpoints, nothing inserted. */
  lemma UpdateUserReposFetchFails(env: Environment, s: State)
    requires !env.localReadFails && env.starred.None?
    ensures Progresses(UpdateUserRepos(env, s.repos)) == [30, 60]
    ensures Inserted(UpdateUserRepos(env, s.repos)) == []
    ensures Run(s, UpdateUserRepos(env, s.repos)) == State(s.job.(progress := 60, message := PullingMessage), s.repos)
  {
    var e30, e60 := WriteProgress(CheckingMessage, 30), WriteProgress(PullingMessage, 60);
    assert UpdateUserRepos(env, s.repos) == [e30] + [e60];
    Single(Step(s, e30), e60);
    Cons(s, e30, [e60]);
  }

  /** `updateUserRepos` as one trace: its progress writes, its inserts, and its effect on a state. */
  lemma UpdateUserReposTrace(env: Environment, s: State)
    ensures Progresses(UpdateUserRepos(env, s.repos)) ==
      (if env.localReadFails then [30] else if env.starred.None? then [30, 60] else [30, 60, 90])
    ensures Inserted(UpdateUserRepos(env, s.repos)) ==
      (if env.localReadFails || env.starred.None? then []
       else Committed(NewRepos(env.starred.value, s.repos), env.failingInsert))
    ensures Run(s, UpdateUserRepos(env, s.repos)) ==
      State(s.job.(progress := if env.localReadFails then 30 else if env.starred.None? then 60 else 90,
                   message := if env.localReadFails then CheckingMessage
                              else if env.starred.None? then PullingMessage else UpdatingMessage),
            ApplyInserts(s.repos, CommittedInserts(env, s.repos)))
  {
    if env.localReadFails {
      Single(s, WriteProgress(CheckingMessage, 30));
    } else if env.starred.None? {
      UpdateUserReposFetchFails(env, s);
    } else {
      UpdateUserReposFetched(env, s);
    }
  }

  /** The checkpoints `updateUserRepos` reaches: a throwing local read stops it after 30, a throwing fetch after 60. */
  lemma ReachedCheckpointsCases(env: Environment, stored: set<RepoId>)
    ensures ReachedCheckpoints(env, stored) ==
      (if env.localReadFails then [30] else if env.starred.None? then [30, 60] else [30, 60, 90])
  {
    UpdateUserReposTrace(env, State(NewJob(0), stored));
  }

  /** The inserts `updateUserRepos` commits: none unless both reads succeed, then those before any throwing insert. */
  lemma CommittedInsertsCases(env: Environment, stored: set<RepoId>)
    ensures CommittedInserts(env, stored) ==
      (if env.localReadFails || env.starred.None? then []
       else Committed(NewRepos(env.starred.value, stored), env.failingInsert))
  {
    UpdateUserReposTrace(env, State(NewJob(0), stored));
  }

  /** Missing or empty token: one error write, nothing else. */
  lemma MissingTokenBody(env: Environment, s: State)
    requires MissingToken(env.token)
    ensures JobBody(env, s.repos) == [WriteError(MissingTokenMessage)]
    ensures Progresses(JobBody(env, s.repos)) == [] && Inserted(JobBody(env, s.repos)) == []
    ensures Run(s, JobBody(env, s.repos)) == State(s.job.(error := Some(MissingTokenMessage)), s.repos)
  {
  }

  /** Only progress writes and inserts happen inside `updateUserRepos`. */
  lemma UpdateUserReposWrites(env: Environment, stored: set<RepoId>)
    ensures forall e :: e in UpdateUserRepos(env, stored) ==> e.WriteProgress? || e.InsertRepo?
  {
  }

  /** With a token the body ends with the 100% write and the completion, and never writes an error. */
  lemma TokenBodyShape(env: Environment, stored: set<RepoId>)
    requires !MissingToken(env.token)
    ensures var t := JobBody(env, stored);
      && |t| >= 2
      && t[|t| - 2..] == CompletionWrites()
      && (forall e :: e in t ==> !e.WriteError?)
  {
  }

  lemma CompletionRun(x: State)
    ensures Progresses(CompletionWrites()) == [100] && Inserted(CompletionWrites()) == []
    ensures Run(x, CompletionWrites()) == State(x.job.(progress := 100, message := CompletedMessage, completed := true), x.repos)
  {
  }

  /**
    With a token the job always ends at 100% and completed, with no error,
    whether or not a collaborator threw; the store gains the committed inserts.
  */
  lemma TokenBody(env: Environment, s: State)
    requires !MissingToken(env.token)
    ensures Progresses(JobBody(env, s.repos)) == ReachedCheckpoints(env, s.repos) + [100]
    ensures Inserted(JobBody(env, s.repos)) == CommittedInserts(env, s.repos)
    ensures Run(s, JobBody(env, s.repos)) ==
      State(s.job.(progress := 100, message := CompletedMessage, completed := true),
            ApplyInserts(s.repos, CommittedInserts(env, s.repos)))
  {
    var u := UpdateUserRepos(env, s.repos);
    UpdateUserReposTrace(env, s);
    var mid := Run(s, u);
    assert mid.repos == ApplyInserts(s.repos, CommittedInserts(env, s.repos));
    CompletionRun(mid);
    RunAppend(s, u, CompletionWrites());
    ProgressesAppend(u, CompletionWrites());
    InsertedAppend(u, CompletionWrites());
  }

  /** The three possible checkpoint sequences are ordered and follow 30, 60, 90, 100. */
  lemma CheckpointSequences(env: Environment, stored: set<RepoId>)
    ensures NonDecreasing(ReachedCheckpoints(env, stored) + [100])
    ensures IsSubsequence(ReachedCheckpoints(env, stored) + [100], [30, 60, 90, 100])
  {
    ReachedCheckpointsCases(env, stored);
    var c1: seq<nat> := [30];
    var c2: seq<nat> := [30, 60];
    var c3: seq<nat> := [30, 60, 90];
    var all: seq<nat> := [30, 60, 90, 100];
    assert all[..3] == c3;
    assert c3[..2] == c2;
    assert c2[..1] == c1;
    assert c1[..0] == [];
    assert IsSubsequence(c1, c1);
    var p := ReachedCheckpoints(env, stored) + [100];
    if env.localReadFails {
      assert p[..1] == c1;
      assert IsSubsequence(c1, c2);
      assert IsSubsequence(c1, c3);
    } else if env.starred.None? {
      assert p[..2] == c2;
      assert IsSubsequence(c2, c2);
      assert IsSubsequence(c2, c3);
    } else {
      assert p == all;
      assert IsSubsequence(c2, c2);
      assert IsSubsequence(c3, c3);
    }
  }

  /**
    The progress writes of any run are non-decreasing and drawn from the
    checkpoints 30, 60, 90 and 100, in that order.
  */
  lemma ProgressNonDecreasing(env: Environment, stored: set<RepoId>)
    ensures NonDecreasing(Progresses(JobBody(env, stored)))
    ensures IsSubsequence(Progresses(JobBody(env, stored)), [30, 60, 90, 100])
  {
    var s := State(NewJob(0), stored);
    if MissingToken(env.token) {
      MissingTokenBody(env, s);
    } else {
      TokenBody(env, s);
      CheckpointSequences(env, stored);
    }
  }

  /**
    The inserts a run commits are a prefix of the full insert list; with no
    collaborator throwing they are the whole list.
  */
  lemma InsertsArePrefix(env: Environment, stored: set<RepoId>)
    requires !MissingToken(env.token) && env.starred.Some?
    ensures Inserted(JobBody(env, stored)) <= NewRepos(env.starred.value, stored)
    ensures FaultFree(env) ==> Inserted(JobBody(env, stored)) == NewRepos(env.starred.value, stored)
  {
    TokenBody(env, State(NewJob(0), stored));
    CommittedInsertsCases(env, stored);
  }

  /** The progress a poller sees after the first `n` writes. */
  function Polled(s: State, trace: seq<Effect>, n: nat): nat
    requires n <= |trace|
  {
    Run(s, trace[..n]).job.progress
  }

  /** After a trace, the job shows its last progress write, or the initial value if none. */
  lemma {:induction false} RunProgress(s: State, trace: seq<Effect>)
    ensures var p := Progresses(trace);
      Run(s, trace).job.progress == if |p| == 0 then s.job.progress else p[|p| - 1]
    decreases |trace|
  {
    if |trace| > 0 {
      RunProgress(s, trace[..|trace| - 1]);
    }
  }

  /**
    A poller never sees progress go down, provided the progress writes are
    non-decreasing and start no lower than the job's initial progress.
  */
  lemma PolledStep(s: State, trace: seq<Effect>, i: nat)
    requires NonDecreasing(Progresses(trace))
    requires |Progresses(trace)| > 0 ==> s.job.progress <= Progresses(trace)[0]
    requires i < |trace|
    ensures Polled(s, trace, i) <= Polled(s, trace, i + 1)
  {
    var pre := trace[..i];
    assert trace[..i + 1][..i] == pre;
    if trace[i].WriteProgress? {
      assert trace == trace[..i + 1] + trace[i + 1..];
      ProgressesAppend(trace[..i + 1], trace[i + 1..]);
      var p := Progresses(pre);
      assert Progresses(trace[..i + 1]) == p + [trace[i].percent];
      RunProgress(s, pre);
      if |p| > 0 {
        assert Progresses(trace)[|p| - 1] == p[|p| - 1];
        assert Progresses(trace)[|p|] == trace[i].percent;
      } else {
        assert Progresses(trace)[0] == trace[i].percent;
      }
    }
  }

  /** Polling the job of a run at any two moments never shows progress going down. */
  lemma {:induction false} PolledProgressNonDecreasing(env: Environment, stored: set<RepoId>, user: UserId, i: nat, j: nat)
    requires i <= j <= |JobBody(env, stored)|
    ensures Polled(State(NewJob(user), stored), JobBody(env, stored), i)
         <= Polled(State(NewJob(user), stored), JobBody(env, stored), j)
    decreases j - i
  {
    if i < j {
      ProgressNonDecreasing(env, stored);
      PolledStep(State(NewJob(user), stored), JobBody(env, stored), i);
      PolledProgressNonDecreasing(env, stored, user, i + 1, j);
    }
  }
}
