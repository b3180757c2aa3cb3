/**
  Repository reconciliation from `TaggitService.updateUserRepos`: the remote
  starred list is compared against a snapshot of the repository ids already
  stored for the user, and every remote repository whose id is not in the
  snapshot is inserted, in remote-list order. Nothing is ever deleted.

  The store of a user's repositories is abstracted to the set of their ids;
  an insert adds the inserted repository's id.
*/
module Reconcile {

  /** The hosting service's repository id. */
  type RepoId = int

  /** A starred repository as the hosting service reports it. */
  datatype RemoteRepo = RemoteRepo(id: RepoId, name: string)

  /** `xs` is `ys` with some elements removed, the rest in their original order. */
  predicate IsSubsequence<T(==)>(xs: seq<T>, ys: seq<T>)
    decreases |ys|
  {
    if |xs| == 0 then true
    else if |ys| == 0 then false
    else (xs[|xs| - 1] == ys[|ys| - 1] && IsSubsequence(xs[..|xs| - 1], ys[..|ys| - 1]))
         || IsSubsequence(xs, ys[..|ys| - 1])
  }

  /** No two entries share a repository id. */
  predicate DistinctIds(repos: seq<RemoteRepo>)
  {
    forall i, j :: 0 <= i < j < |repos| ==> repos[i].id != repos[j].id
  }

  /** The ids of a list of repositories. */
  function IdsOf(repos: seq<RemoteRepo>): (r: set<RepoId>)
    ensures forall x :: x in repos ==> x.id in r
    ensures forall id :: id in r ==> exists x :: x in repos && x.id == id
  {
    set x | x in repos :: x.id
  }

  /**
    The repositories the reconciliation inserts: the remote entries whose id
    is not in the snapshot, in remote-list order. The snapshot is taken once,
    so two remote entries with the same new id are both inserted.
  */
  function NewRepos(remote: seq<RemoteRepo>, snapshot: set<RepoId>): (r: seq<RemoteRepo>)
    ensures forall x :: x in r <==> x in remote && x.id !in snapshot
    ensures |r| <= |remote|
    ensures (forall i :: 0 <= i < |remote| ==> remote[i].id in snapshot) ==> r == []
    decreases |remote|
  {
    if |remote| == 0 then []
    else
      var last := remote[|remote| - 1];
      NewRepos(remote[..|remote| - 1], snapshot) + (if last.id in snapshot then [] else [last])
  }

  /**
    The `forEach` loop of `updateUserRepos`: walks the remote list once and
    collects, in order, each entry the snapshot does not contain.
  */
  method Reconcile(remote: seq<RemoteRepo>, snapshot: set<RepoId>) returns (inserts: seq<RemoteRepo>)
    ensures inserts == NewRepos(remote, snapshot)
    ensures forall x :: x in inserts ==> x in remote && x.id !in snapshot
  {
    inserts := [];
    for i := 0 to |remote|
      invariant inserts == NewRepos(remote[..i], snapshot)
    {
      assert remote[..i + 1][..i] == remote[..i];
      if remote[i].id !in snapshot {
        inserts := inserts + [remote[i]];
      }
    }
    assert remote[..|remote|] == remote;
  }

  /** The user's id set after the given inserts, applied one by one. */
  function ApplyInserts(store: set<RepoId>, inserts: seq<RemoteRepo>): (r: set<RepoId>)
    ensures store <= r
    ensures r == store + IdsOf(inserts)
    decreases |inserts|
  {
    if |inserts| == 0 then store
    else
      var prior := inserts[..|inserts| - 1];
      assert IdsOf(inserts) == IdsOf(prior) + {inserts[|inserts| - 1].id} by {
        assert inserts == prior + [inserts[|inserts| - 1]];
      }
      ApplyInserts(store, prior) + {inserts[|inserts| - 1].id}
  }

  /** Local ids {1, 2} with remote [1, 3, 4] insert 3 then 4. */
  lemma ReconcileExample()
    ensures NewRepos([RemoteRepo(1, "a"), RemoteRepo(3, "c"), RemoteRepo(4, "d")], {1, 2})
         == [RemoteRepo(3, "c"), RemoteRepo(4, "d")]
  {
  }

  /** The inserts keep the remote list's order. */
  lemma {:induction false} NewReposInOrder(remote: seq<RemoteRepo>, snapshot: set<RepoId>)
    ensures IsSubsequence(NewRepos(remote, snapshot), remote)
    decreases |remote|
  {
    if |remote| > 0 {
      var prior := remote[..|remote| - 1];
      var last := remote[|remote| - 1];
      var r := NewRepos(remote, snapshot);
      NewReposInOrder(prior, snapshot);
      if last.id !in snapshot {
        assert r[..|r| - 1] == NewRepos(prior, snapshot);
      } else {
        assert r == NewRepos(prior, snapshot);
      }
    }
  }

  /**
    Each remote entry with a new id is inserted as many times as it occurs in
    the remote list, and every other entry not at all.
  */
  lemma {:induction false} NewReposCounts(remote: seq<RemoteRepo>, snapshot: set<RepoId>)
    ensures forall x :: multiset(NewRepos(remote, snapshot))[x] == if x.id in snapshot then 0 else multiset(remote)[x]
    decreases |remote|
  {
    if |remote| > 0 {
      var prior := remote[..|remote| - 1];
      var last := remote[|remote| - 1];
      NewReposCounts(prior, snapshot);
      assert remote == prior + [last];
      assert multiset(remote) == multiset(prior) + multiset{last};
    }
  }

  /** With distinct remote ids, every insert adds a different id. */
  lemma {:induction false} NewReposDistinct(remote: seq<RemoteRepo>, snapshot: set<RepoId>)
    requires DistinctIds(remote)
    ensures DistinctIds(NewRepos(remote, snapshot))
    decreases |remote|
  {
    if |remote| > 0 {
      var prior := remote[..|remote| - 1];
      var last := remote[|remote| - 1];
      var p := NewRepos(prior, snapshot);
      NewReposDistinct(prior, snapshot);
      if last.id !in snapshot {
        forall k | 0 <= k < |p|
          ensures p[k].id != last.id
        {
          assert p[k] in prior;
          var m :| 0 <= m < |prior| && prior[m] == p[k];
          assert remote[m] == p[k];
        }
      }
    }
  }

  /** A completed reconciliation leaves the old ids plus every remote id. */
  lemma ReconcileCoversRemote(remote: seq<RemoteRepo>, store: set<RepoId>)
    ensures ApplyInserts(store, NewRepos(remote, store)) == store + IdsOf(remote)
  {
  }

  /** Reconciling again against the same remote list inserts nothing. */
  lemma ReconcileIdempotent(remote: seq<RemoteRepo>, store: set<RepoId>)
    ensures NewRepos(remote, ApplyInserts(store, NewRepos(remote, store))) == []
  {
  }
}
