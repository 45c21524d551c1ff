/** Deleting a repository outright (DeleteRepository in internal/registry/delete.go, unlockAll in
    internal/registry/lock.go): one request, for which all its locks are removed first. */
module RepositoryDeletion {
  import opened Manifests
  import Closures
  import opened Locks
  import opened Deletion
  import opened DeletionRuns
  import opened DeletionJobs

  /** The locks to take off: those of every manifest that has one. */
  function AllTargets(known: seq<Manifest>, unlock: bool): seq<Target>
  {
    if known == [] then [] else
    var last := known[|known| - 1];
    AllTargets(known[..|known| - 1], unlock) + if last.IsLocked() then LockTargets(last, unlock) else []
  }

  /** Skipping the manifests without a lock misses no lock: unlocking takes off every lock of every
      manifest and tag. */
  lemma {:induction false} AllTargetsExact(known: seq<Manifest>, unlock: bool, t: Target)
    ensures t in AllTargets(known, unlock) <==> unlock && exists i :: 0 <= i < |known| && IsLockOf(known[i], t)
  {
    if known != [] {
      var last := |known| - 1;
      AllTargetsExact(known[..last], unlock, t);
      LockTargetsExact(known[last], unlock);
      if i :| 0 <= i < |known| && IsLockOf(known[i], t) {
        assert i < last ==> known[..last][i] == known[i];
        assert i == last ==> known[i].IsLocked();
      }
      hide LockTargets, IsLockOf;
      if i :| 0 <= i < last && IsLockOf(known[..last][i], t) {
        assert known[i] == known[..last][i];
      }
    }
  }

  /** The repository itself, as the only thing to delete. */
  function RepositoryRef(repository: string): Ref
  {
    Ref(repository, "")
  }

  function RepositoryJob(repository: string, known: seq<Manifest>, unlock: bool, accepted: bool): Job
  {
    var n := RepositoryRef(repository);
    Job(map[n := 0], 1, map[n := []], map[n := AllTargets(known, unlock)], if accepted then {n} else {})
  }

  lemma RepositoryJobValid(repository: string, known: seq<Manifest>, unlock: bool, accepted: bool)
    ensures ValidJob(RepositoryJob(repository, known, unlock, accepted))
  {
  }

  /** The steps of deleting a repository; a malformed name is refused before any of them. */
  ghost predicate RepositoryRun(job: Job, wellNamed: bool, before: State, events: seq<Event>)
  {
    Initial(job, before) && Possible(job, before, events) && (!wellNamed ==> events == [])
  }

  ghost predicate Ended(job: Job, wellNamed: bool, s: State)
  {
    !wellNamed || Finished(job, s)
  }

  /** No error is returned: the request was confirmed, whatever happened since. */
  predicate RepositoryDeleted(repository: string, s: State)
  {
    RepositoryRef(repository) in s.deleted
  }

  /** Success is reported exactly when the registry confirmed the request, and then the repository is
      gone; without an interruption that is exactly when the name is well-formed and the registry
      accepts. If nothing was started no lock is touched; once it is over without success every lock of
      every manifest and tag is as before, unless restoring it failed; no other lock ever changes. */
  lemma RepositoryAllOrNothing(repository: string, wellNamed: bool, known: seq<Manifest>, unlock: bool, accepted: bool,
                               before: State, events: seq<Event>)
    requires RepositoryRun(RepositoryJob(repository, known, unlock, accepted), wellNamed, before, events)
    ensures var job, n := RepositoryJob(repository, known, unlock, accepted), RepositoryRef(repository);
            var s := After(job, before, events);
            && (RepositoryDeleted(repository, s) <==> Respond(n, Confirmed) in events)
            && (RepositoryDeleted(repository, s) ==> wellNamed && accepted && n !in s.present)
            && (Ended(job, wellNamed, s) && !s.cancelled ==>
                  (RepositoryDeleted(repository, s) <==> wellNamed && accepted))
            && n in s.phases && (Ended(job, wellNamed, s) ==> !s.phases[n].Active())
            && (forall i, t | 0 <= i < |known| && IsLockOf(known[i], t) ::
                  && (Start(n) !in events ==> FlagsOf(s, t) == FlagsOf(before, t) && t !in s.unrestored)
                  && (!s.phases[n].Active() && !RepositoryDeleted(repository, s) && t !in s.unrestored ==>
                        SameLocks(FlagsOf(s, t), FlagsOf(before, t))))
            && (forall t | !unlock || forall i | 0 <= i < |known| :: !IsLockOf(known[i], t) ::
                  FlagsOf(s, t) == FlagsOf(before, t))
  {
    hide *;
    var job, n := RepositoryJob(repository, known, unlock, accepted), RepositoryRef(repository);
    RepositoryJobValid(repository, known, unlock, accepted);
    RepositoryRunMeans(repository, known, unlock, accepted, wellNamed, before, events);
    var s := After(job, before, events);
    DeletedConfirmed(job, before, events, n);
    DeletedInOrder(job, before, events);
    FinishedExactly(job, before, events, n);
    SingleAncestry(job, n);
    RepositoryPhase(job, wellNamed, before, events, n);
    SuccessMeans(repository, s);
    forall i, t | 0 <= i < |known| && IsLockOf(known[i], t)
      ensures Start(n) !in events ==> FlagsOf(s, t) == FlagsOf(before, t) && t !in s.unrestored
      ensures !s.phases[n].Active() && !RepositoryDeleted(repository, s) && t !in s.unrestored ==>
                SameLocks(FlagsOf(s, t), FlagsOf(before, t))
    {
      SameFlagsLock(FlagsOf(s, t), FlagsOf(before, t));
      AllTargetsExact(known, unlock, t);
      if unlock {
        LocksSurvive(job, before, events, n, t);
        LocksBack(job, before, events, n, t);
      } else {
        OtherLocksUntouched(job, before, events, t);
        NothingUnrestored(job, before, events, t);
      }
    }
    forall t | !unlock || forall i | 0 <= i < |known| :: !IsLockOf(known[i], t)
      ensures FlagsOf(s, t) == FlagsOf(before, t)
    {
      AllTargetsExact(known, unlock, t);
      OtherLocksUntouched(job, before, events, t);
    }
  }

  lemma RepositoryRunMeans(repository: string, known: seq<Manifest>, unlock: bool, accepted: bool, wellNamed: bool,
                           before: State, events: seq<Event>)
    requires RepositoryRun(RepositoryJob(repository, known, unlock, accepted), wellNamed, before, events)
    ensures var job, n := RepositoryJob(repository, known, unlock, accepted), RepositoryRef(repository);
            && Initial(job, before) && Possible(job, before, events) && (!wellNamed ==> events == [])
            && job.level.Keys == {n} == job.targets.Keys == job.parents.Keys && job.parents[n] == []
            && job.targets[n] == AllTargets(known, unlock) && (n in job.accepts <==> accepted)
            && before.deleted == []
            && forall s :: Ended(job, wellNamed, s) <==> !wellNamed || Finished(job, s)
  {
  }

  lemma SuccessMeans(repository: string, s: State)
    ensures RepositoryDeleted(repository, s) <==> RepositoryRef(repository) in s.deleted
  {
  }

  lemma RepositoryPhase(job: Job, wellNamed: bool, before: State, events: seq<Event>, n: Ref)
    requires ValidJob(job) && Initial(job, before) && Possible(job, before, events) && n in job.level
    requires !wellNamed ==> events == []
    ensures n in After(job, before, events).phases
    ensures Ended(job, wellNamed, After(job, before, events)) ==> !After(job, before, events).phases[n].Active()
  {
    InitialSound(job, before);
    RunSound(job, before, before, events);
    IdlePhases(job, before, After(job, before, events), n);
  }

  lemma SingleAncestry(job: Job, n: Ref)
    requires n in job.parents && job.parents[n] == []
    ensures Ancestry(job, n) == {n}
  {
    Closures.ReachLeast(ParentEdges(job), {n});
    assert Closures.Bounds(ParentEdges(job), {n}, {n});
  }
}
