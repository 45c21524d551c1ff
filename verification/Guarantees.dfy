/** What a prune guarantees, from the inspected repository to the last deletion request. */
module Guarantees {
  import opened Manifests
  import opened Closures
  import opened Sums
  import opened Rules
  import opened Retention
  import opened TagLocks
  import opened Decisions
  import opened Locks
  import opened DeletionOrder
  import opened Deletion
  import opened DeletionRuns
  import opened DeletionJobs
  import opened Safety
  import opened RepositoryDeletion
  import opened Prune
  import opened LazyPlans

  // ----- what a plan keeps

  lemma KeepsMore(p: Pruner, repo: Repo, rule: RepoRule, now: int, decided: set<Digest>, protectsLastTag: bool,
                  kept: set<Digest>)
    requires Keeps(p, repo, rule, now, decided, protectsLastTag, kept) &&
             Closed(KeepEdges(repo, rule.deleteOrphaned), decided)
    ensures decided <= kept && Closed(KeepEdges(repo, rule.deleteOrphaned), kept)
    ensures protectsLastTag && decided != {} && TaggedIn(repo, repo.Keys) != {} ==> TaggedIn(repo, kept) != {}
  {
    if kept != decided {
      var last :| BestTagged(repo, last) && kept == WithLastTag(p, repo, rule, now, decided, last);
      ReachLeast(KeepEdges(repo, rule.deleteOrphaned), decided + {last} + ProtectedReferrers(p, repo, now));
      BestPresent(repo, last);
      hide KeepEdges, Reach, BestTagged, ProtectedReferrers;
      assert last in TaggedIn(repo, kept);
    }
  }

  /** Everything a lock, the running images, its age or the scope protects is kept, whether or not
      its tag locks were ever looked at; what is kept is closed; and a tagged manifest stays where
      the registry insists on one. A whole repository is deleted only if nothing in it is protected. */
  lemma PlanSafe(p: Pruner, repo: Repo, rule: RepoRule, now: int, locked: set<string>, protectsLastTag: bool,
                 plan: Plan)
    requires WellKeyed(repo) && Unloaded(repo) && plan.Planned?
    requires PlanFor(p, repo, rule, now, locked, protectsLastTag, plan)
    ensures Closed(KeepEdges(repo, rule.deleteOrphaned), Elements(plan.toKeep))
    ensures AllProtected(p, WithTagLocks(repo, repo.Keys, locked), now) <= Elements(plan.toKeep)
    ensures forall d | d in repo && Untouchable(p, repo[d], now, locked) :: d in plan.toKeep
    ensures forall d | d in repo && p.selection.Some? && d !in p.selection.value :: d in plan.toKeep
    ensures plan.whole ==> plan.toKeep == []
    ensures protectsLastTag && !plan.whole && TaggedIn(repo, repo.Keys) != {} ==>
            TaggedIn(repo, Elements(plan.toKeep)) != {}
  {
    var decided := LazyDecision(p, repo, rule, now, locked).value;
    var second := LoadedRepo(p, repo, rule, now, locked);
    var candidates := LockCandidates(p, repo, rule, Decision(p, repo, rule, now).value);
    var kept := Elements(plan.toKeep);
    KeyedAnyway(repo, candidates, locked);
    LazyLocksSafe(p, repo, rule, now, locked);
    DecisionSound(p, second, rule, now);
    SameGraph(repo, second, rule.deleteOrphaned);
    SameTags(repo, second);
    forall d | d in repo && Untouchable(p, repo[d], now, locked)
      ensures d in AllProtected(p, WithTagLocks(repo, repo.Keys, locked), now)
    {
      UntouchableExact(p, repo, now, locked, d);
    }
    hide Decision, WithTagLocks, LockCandidates, KeepEdges, Closed, Keeps, TaggedIn, AllProtected, ProtectedReferrers,
         Untouchable;
    KeepsMore(p, second, rule, now, decided, protectsLastTag, kept);
    if plan.whole {
      WholeKeeps(p, second, rule, now, decided, protectsLastTag, plan.toKeep);
    }
  }

  lemma NoElements<T(!new)>(s: seq<T>)
    ensures Elements(s) == {} ==> s == []
  {
    if |s| > 0 {
      assert s[0] in Elements(s);
    }
  }

  lemma WholeKeeps(p: Pruner, repo: Repo, rule: RepoRule, now: int, decided: set<Digest>, protectsLastTag: bool,
                   toKeep: seq<Digest>)
    requires decided == {} && Keeps(p, repo, rule, now, decided, protectsLastTag, Elements(toKeep))
    ensures toKeep == []
  {
    NoElements(toKeep);
  }

  lemma SameTags(repo: Repo, other: Repo)
    requires SameButLocks(repo, other)
    ensures repo.Keys == other.Keys && forall s :: TaggedIn(repo, s) == TaggedIn(other, s)
  {
  }

  lemma PlanParts(p: Pruner, repo: Repo, rule: RepoRule, now: int, locked: set<string>, protectsLastTag: bool,
                  plan: Plan)
    requires WellKeyed(repo) && plan.Planned? && PlanFor(p, repo, rule, now, locked, protectsLastTag, plan)
    ensures Elements(plan.toDelete) == repo.Keys - Elements(plan.toKeep)
  {
    hide LazyDecision, LoadedRepo, Keeps;
  }

  /** A plan deletes the repository outright only if nothing in it is protected, by any tag lock
      either, and everything in it was in scope. */
  lemma WholeUnprotected(p: Pruner, repo: Repo, rule: RepoRule, now: int, locked: set<string>, protectsLastTag: bool,
                         plan: Plan)
    requires WellKeyed(repo) && Unloaded(repo) && plan.Planned? && plan.whole
    requires PlanFor(p, repo, rule, now, locked, protectsLastTag, plan)
    ensures forall d | d in repo :: !Untouchable(p, repo[d], now, locked)
    ensures Elements(plan.toDelete) == repo.Keys
    ensures forall d | d in repo :: p.selection.None? || d in p.selection.value
  {
    hide *;
    PlanParts(p, repo, rule, now, locked, protectsLastTag, plan);
    PlanSafe(p, repo, rule, now, locked, protectsLastTag, plan);
    assert Elements(plan.toKeep) == {};
  }

  // ----- the guarantee

  ghost predicate AllHeld(repo: Repo, digests: set<Digest>, present: set<Ref>)
  {
    forall d | d in digests && d in repo :: Held(present, repo[d].doc)
  }

  lemma AllKeptStay(repo: Repo, kept: set<Digest>, job: Job, before: State, events: seq<Event>)
    requires WellKeyed(repo) && RunOf(repo, kept, job, before, events)
    ensures AllHeld(repo, kept, After(job, before, events).present)
  {
    var present := After(job, before, events).present;
    hide RunOf, After, Held;
    forall d | d in kept && d in repo ensures Held(present, repo[d].doc) {
      KeptStays(repo, kept, job, before, events, d);
      HeldRef(repo, present, d);
    }
  }

  /** What becomes of a plan: its manifests are deleted one by one, or not at all because they are
      malformed or cannot be ordered; or the repository is deleted outright. */
  datatype Run =
    | Piecewise(unlock: bool, job: Job, before: State, events: seq<Event>)
    | Unordered(valid: Document -> bool)
    | Outright(unlock: bool, repository: string, wellNamed: bool, known: seq<Manifest>, accepted: bool,
               before: State, events: seq<Event>)
  {
    function Job(): Job
      requires !Unordered?
    {
      if Piecewise? then job else RepositoryJob(repository, known, unlock, accepted)
    }
  }

  /** The manifests in the order listed. */
  ghost predicate Lists(repo: Repo, digests: seq<Digest>, list: seq<Manifest>)
  {
    |list| == |digests| && forall i | 0 <= i < |list| :: digests[i] in repo && list[i] == repo[digests[i]]
  }

  /** The run carries out the plan, on the manifests with the locks that were loaded for it. */
  ghost predicate Carries(repo: Repo, loaded: Repo, plan: Plan, run: Run)
    requires WellKeyed(repo) && WellKeyed(loaded) && plan.Planned?
  {
    match run
    case Piecewise(unlock, job, before, events) =>
      && !plan.whole && RunOf(repo, Elements(plan.toKeep), job, before, events)
      && JobOf(loaded, Elements(plan.toKeep), unlock, job)
    case Unordered(valid) =>
      && !plan.whole
      && (!AllValid(repo, Elements(plan.toKeep), valid) || Tied(VictimDocs(repo, Elements(plan.toKeep))))
    case Outright(unlock, repository, wellNamed, known, accepted, before, events) =>
      && plan.whole && Lists(loaded, plan.toDelete, known)
      && (forall d | d in repo :: repo[d].doc.repository == repository)
      && RepositoryRun(run.Job(), wellNamed, before, events)
  }

  lemma CarriesPossible(repo: Repo, loaded: Repo, plan: Plan, run: Run)
    requires WellKeyed(repo) && WellKeyed(loaded) && plan.Planned? && Carries(repo, loaded, plan, run)
    ensures !run.Unordered? ==> Initial(run.Job(), run.before) && Possible(run.Job(), run.before, run.events)
  {
    hide JobOf, Initial, Possible, WellKeyed, Lists;
  }

  /** The registry and its locks after the events. */
  ghost function StateAfter(repo: Repo, loaded: Repo, plan: Plan, run: Run): State
    requires WellKeyed(repo) && WellKeyed(loaded) && plan.Planned? && Carries(repo, loaded, plan, run)
    requires !run.Unordered?
  {
    CarriesPossible(repo, loaded, plan, run);
    After(run.Job(), run.before, run.events)
  }

  /** The manifests the registry holds after the events. Deleting a repository is one operation of
      the registry, which removes all of it. */
  ghost function Holds(repo: Repo, loaded: Repo, plan: Plan, run: Run): set<Ref>
    requires WellKeyed(repo) && WellKeyed(loaded) && plan.Planned? && Carries(repo, loaded, plan, run)
  {
    match run
    case Piecewise(_, _, _, _) => StateAfter(repo, loaded, plan, run).present
    case Unordered(_) => AllRefs(repo, repo.Keys)
    case Outright(_, repository, _, _, _, _, _) =>
      if RepositoryRef(repository) in StateAfter(repo, loaded, plan, run).present then AllRefs(repo, repo.Keys) else {}
  }

  /** Loading locks does not change what is to be deleted, or in which order. */
  lemma SameVictims(repo: Repo, loaded: Repo, kept: set<Digest>)
    requires WellKeyed(repo) && WellKeyed(loaded) && SameButLocks(repo, loaded)
    ensures VictimDocs(repo, kept) == VictimDocs(loaded, kept)
    ensures AllRefs(repo, repo.Keys) == AllRefs(loaded, loaded.Keys)
  {
    assert forall d | d in repo :: RefOf(repo, d) == RefOf(loaded, d);
    assert AllRefs(repo, repo.Keys - kept) == AllRefs(loaded, loaded.Keys - kept);
    hide SameButLocks;
    VictimsWithin(repo, kept);
    VictimsWithin(loaded, kept);
    hide VictimDocs, DocAt;
  }

  /** Every job worked out for a plan, and every outright deletion, can start to carry it out, however
      the registry is locked. */
  lemma PlanStarts(p: Pruner, repo: Repo, rule: RepoRule, now: int, locked: set<string>, protectsLastTag: bool,
                   plan: Plan, run: Run, job: Job, flags: map<Target, Flags>)
    requires WellKeyed(repo) && Unloaded(repo) && plan.Planned? && !run.Unordered? && job == run.Job()
    requires PlanFor(p, repo, rule, now, locked, protectsLastTag, plan) && (plan.whole <==> run.Outright?)
    requires var loaded := LoadedRepo(p, repo, rule, now, locked);
             if run.Piecewise?
             then JobOf(loaded, Elements(plan.toKeep), run.unlock, job) &&
                  run.before == Fresh(job, AllRefs(repo, repo.Keys), flags)
             else Lists(loaded, plan.toDelete, run.known) && run.before == Fresh(job, job.level.Keys, flags) &&
                  forall d | d in repo :: repo[d].doc.repository == run.repository
    requires run.events == []
    ensures Carries(repo, LoadedRepo(p, repo, rule, now, locked), plan, run)
  {
    hide *;
    PlanLoaded(p, repo, rule, now, locked, protectsLastTag, plan);
    var loaded, kept := LoadedRepo(p, repo, rule, now, locked), Elements(plan.toKeep);
    if run.Piecewise? {
      SameVictims(repo, loaded, kept);
      FreshRun(loaded, kept, run.unlock, job, flags);
      SameRun(repo, loaded, kept, job, run.before);
    } else {
      FreshInitial(job, job.level.Keys, flags);
    }
    JobIs(run);
    StartCarries(repo, loaded, plan, run);
  }

  lemma SameRun(repo: Repo, loaded: Repo, kept: set<Digest>, job: Job, before: State)
    requires WellKeyed(repo) && WellKeyed(loaded) && VictimDocs(repo, kept) == VictimDocs(loaded, kept)
    requires AllRefs(repo, repo.Keys) == AllRefs(loaded, loaded.Keys) && RunOf(loaded, kept, job, before, [])
    ensures RunOf(repo, kept, job, before, [])
  {
    hide VictimDocs, AllRefs, ValidJob, Orders;
  }

  lemma JobIs(run: Run)
    ensures run.Piecewise? ==> run.Job() == run.job
  {
  }

  lemma StartCarries(repo: Repo, loaded: Repo, plan: Plan, run: Run)
    requires WellKeyed(repo) && WellKeyed(loaded) && plan.Planned? && (plan.whole <==> run.Outright?)
    requires run.Piecewise? ==> RunOf(repo, Elements(plan.toKeep), run.job, run.before, run.events)
    requires run.Piecewise? ==> JobOf(loaded, Elements(plan.toKeep), run.unlock, run.job)
    requires run.Outright? ==> Lists(loaded, plan.toDelete, run.known) && Initial(run.Job(), run.before)
    requires run.Outright? ==> forall d | d in repo :: repo[d].doc.repository == run.repository
    requires !run.Unordered? && run.events == []
    ensures Carries(repo, loaded, plan, run)
  {
    hide RunOf, JobOf, Initial, Lists, WellKeyed;
  }

  // ----- locks

  /** What is deleted when a manifest is: itself, or its repository. */
  function UnitOf(run: Run, m: Manifest): Ref
    requires !run.Unordered?
  {
    if run.Piecewise? then Ref(m.doc.repository, m.doc.digest) else RepositoryRef(run.repository)
  }

  /** The lock of a manifest, or of a tag of it, is as before unless the deletion was started; and
      also afterwards, once no worker is busy with it, if it was not deleted, unless restoring failed. */
  ghost predicate LockKept(run: Run, s: State, m: Manifest, kept: bool, t: Target)
    requires !run.Unordered?
  {
    var n := UnitOf(run, m);
    && (kept || Start(n) !in run.events ==> FlagsOf(s, t) == FlagsOf(run.before, t))
    && ((n in s.phases && s.phases[n].Active()) || n in s.deleted || t in s.unrestored ||
        SameLocks(FlagsOf(s, t), FlagsOf(run.before, t)))
  }

  /** All locks are kept: of every manifest, kept or not, whether or not they were looked up. */
  ghost predicate LocksKept(repo: Repo, loaded: Repo, eager: Repo, plan: Plan, run: Run)
    requires WellKeyed(repo) && WellKeyed(loaded) && plan.Planned? && Carries(repo, loaded, plan, run)
  {
    !run.Unordered? ==>
      forall d, t | d in eager && IsLockOf(eager[d], t) ::
        LockKept(run, StateAfter(repo, loaded, plan, run), eager[d], d in plan.toKeep, t)
  }

  /** The locks loaded are those of the manifests to delete, and some of the others. */
  ghost predicate Loaded(loaded: Repo, eager: Repo, plan: Plan)
    requires plan.Planned?
  {
    && loaded.Keys == eager.Keys
    && (forall d | d in plan.toDelete :: d in loaded && loaded[d] == eager[d])
    && (forall d | d in loaded && d !in plan.toKeep :: d in plan.toDelete)
    && (forall d | d in plan.toKeep :: d !in plan.toDelete)
  }

  /** No lock of a manifest is taken off for another one. */
  lemma OwnLocksOnly(loaded: Repo, eager: Repo, plan: Plan, unlock: bool, job: Job, d: Digest, t: Target, n: Ref)
    requires WellKeyed(loaded) && WellKeyed(eager) && plan.Planned? && Loaded(loaded, eager, plan) && OneOwner(eager)
    requires JobOf(loaded, Elements(plan.toKeep), unlock, job)
    requires d in eager && IsLockOf(eager[d], t) && n in job.level && t in job.targets[n]
    ensures n == RefOf(eager, d) && d !in plan.toKeep
  {
    hide Orders, Layered, OwnLocks, IsLockOf, DocAt, OneOwner, WellKeyed;
    var kept := Elements(plan.toKeep);
    VictimsWithin(loaded, kept);
    OrdersKeys(VictimDocs(loaded, kept), job.parents);
    hide VictimDocs;
    assert n.digest in loaded && n.digest !in kept && RefOf(loaded, n.digest) == n;
    assert n.digest in plan.toDelete;
    assert TakesOff(loaded[n.digest], unlock, job);
    if n.digest != d {
      LockOwner(eager, d, n.digest, t);
    }
  }

  /** No two manifests share a lock. */
  lemma LockOwner(eager: Repo, d: Digest, e: Digest, t: Target)
    requires WellKeyed(eager) && OneOwner(eager) && d in eager && e in eager && d != e && IsLockOf(eager[d], t)
    ensures !IsLockOf(eager[e], t)
  {
    RefUnique(eager, d, e);
  }

  lemma PiecewiseLock(repo: Repo, loaded: Repo, eager: Repo, plan: Plan, run: Run, d: Digest, t: Target)
    requires WellKeyed(repo) && WellKeyed(loaded) && WellKeyed(eager) && plan.Planned?
    requires Loaded(loaded, eager, plan) && OneOwner(eager)
    requires Carries(repo, loaded, plan, run) && run.Piecewise?
    requires d in eager && IsLockOf(eager[d], t)
    ensures LockKept(run, StateAfter(repo, loaded, plan, run), eager[d], d in plan.toKeep, t)
  {
    hide *;
    CarriesMeans(repo, loaded, plan, run);
    var job, n := run.job, RefOf(eager, d);
    var s := After(job, run.before, run.events);
    JobOfValid(loaded, Elements(plan.toKeep), run.unlock, job);
    if n in job.level && t in job.targets[n] {
      OwnLocksOnly(loaded, eager, plan, run.unlock, job, d, t, n);
      LocksSurvive(job, run.before, run.events, n, t);
      LocksBack(job, run.before, run.events, n, t);
    } else {
      forall m | m in job.level ensures t !in job.targets[m] {
        if t in job.targets[m] {
          OwnLocksOnly(loaded, eager, plan, run.unlock, job, d, t, m);
        }
      }
      OtherLocksUntouched(job, run.before, run.events, t);
      SameFlagsLock(FlagsOf(s, t), FlagsOf(run.before, t));
    }
    LockKeptMeans(run, s, eager[d], d in plan.toKeep, t);
    UnitIs(run, eager, d);
  }

  lemma UnitIs(run: Run, eager: Repo, d: Digest)
    requires !run.Unordered? && d in eager
    ensures UnitOf(run, eager[d]) == if run.Piecewise? then RefOf(eager, d) else RepositoryRef(run.repository)
  {
  }

  lemma LockKeptMeans(run: Run, s: State, m: Manifest, kept: bool, t: Target)
    requires !run.Unordered?
    ensures var n := UnitOf(run, m);
            LockKept(run, s, m, kept, t) <==>
            && (kept || Start(n) !in run.events ==> FlagsOf(s, t) == FlagsOf(run.before, t))
            && ((n in s.phases && s.phases[n].Active()) || n in s.deleted || t in s.unrestored ||
                SameLocks(FlagsOf(s, t), FlagsOf(run.before, t)))
  {
    hide FlagsOf, SameLocks, UnitOf;
  }

  lemma CarriesMeans(repo: Repo, loaded: Repo, plan: Plan, run: Run)
    requires WellKeyed(repo) && WellKeyed(loaded) && plan.Planned? && Carries(repo, loaded, plan, run)
    ensures plan.whole <==> run.Outright?
    ensures run.Piecewise? ==> RunOf(repo, Elements(plan.toKeep), run.job, run.before, run.events)
    ensures run.Piecewise? ==> JobOf(loaded, Elements(plan.toKeep), run.unlock, run.job)
    ensures run.Piecewise? ==> Initial(run.job, run.before) && Possible(run.job, run.before, run.events)
    ensures run.Piecewise? ==> StateAfter(repo, loaded, plan, run) == After(run.job, run.before, run.events)
    ensures run.Outright? ==> Lists(loaded, plan.toDelete, run.known)
    ensures run.Outright? ==> RepositoryRun(RepositoryJob(run.repository, run.known, run.unlock, run.accepted),
                                            run.wellNamed, run.before, run.events)
    ensures run.Outright? ==> RepositoryRun(run.Job(), run.wellNamed, run.before, run.events) &&
                              Initial(run.Job(), run.before) && Possible(run.Job(), run.before, run.events) &&
                              StateAfter(repo, loaded, plan, run) == After(run.Job(), run.before, run.events)
    ensures run.Outright? ==> run.Job() == RepositoryJob(run.repository, run.known, run.unlock, run.accepted)
  {
    hide JobOf, Initial, Possible, WellKeyed, Lists, ValidJob, Orders, RepositoryJob;
  }

  lemma JobOfValid(loaded: Repo, kept: set<Digest>, unlock: bool, job: Job)
    requires WellKeyed(loaded) && JobOf(loaded, kept, unlock, job)
    ensures ValidJob(job) && job.targets.Keys == job.level.Keys
  {
  }

  lemma OutrightLock(repo: Repo, loaded: Repo, eager: Repo, plan: Plan, run: Run, d: Digest, t: Target)
    requires WellKeyed(repo) && WellKeyed(loaded) && plan.Planned? && plan.toKeep == []
    requires Carries(repo, loaded, plan, run) && run.Outright?
    requires d in eager && IsLockOf(eager[d], t)
    ensures LockKept(run, StateAfter(repo, loaded, plan, run), eager[d], d in plan.toKeep, t)
  {
    hide *;
    CarriesMeans(repo, loaded, plan, run);
    var job, n := run.Job(), RepositoryRef(run.repository);
    var s := After(job, run.before, run.events);
    RepositoryAllOrNothing(run.repository, run.wellNamed, run.known, run.unlock, run.accepted, run.before, run.events);
    SuccessMeans(run.repository, s);
    RepositoryTargets(run.repository, run.known, run.unlock, run.accepted);
    if t in job.targets[n] {
      AllTargetsExact(run.known, run.unlock, t);
      var i :| 0 <= i < |run.known| && IsLockOf(run.known[i], t);
    } else {
      SameFlagsLock(FlagsOf(s, t), FlagsOf(run.before, t));
    }
    LockKeptMeans(run, s, eager[d], d in plan.toKeep, t);
    UnitIs(run, eager, d);
  }

  lemma RepositoryTargets(repository: string, known: seq<Manifest>, unlock: bool, accepted: bool)
    ensures var job, n := RepositoryJob(repository, known, unlock, accepted), RepositoryRef(repository);
            n in job.targets && job.targets[n] == AllTargets(known, unlock)
  {
  }

  lemma PlanLoaded(p: Pruner, repo: Repo, rule: RepoRule, now: int, locked: set<string>, protectsLastTag: bool,
                   plan: Plan)
    requires WellKeyed(repo) && Unloaded(repo) && plan.Planned?
    requires PlanFor(p, repo, rule, now, locked, protectsLastTag, plan)
    ensures Decision(p, repo, rule, now).Some?
    ensures WellKeyed(WithTagLocks(repo, repo.Keys, locked))
    ensures Loaded(LoadedRepo(p, repo, rule, now, locked), WithTagLocks(repo, repo.Keys, locked), plan)
  {
    hide *;
    DeletedLoaded(p, repo, rule, now, locked, protectsLastTag, plan);
    KeyedAnyway(repo, repo.Keys, locked);
    PlanParts(p, repo, rule, now, locked, protectsLastTag, plan);
    LoadedWhere(repo, LoadedRepo(p, repo, rule, now, locked), WithTagLocks(repo, repo.Keys, locked), plan);
  }

  lemma LoadedWhere(repo: Repo, loaded: Repo, eager: Repo, plan: Plan)
    requires plan.Planned? && loaded.Keys == eager.Keys == repo.Keys
    requires forall d | d in plan.toDelete :: d in repo && loaded[d] == eager[d]
    requires Elements(plan.toDelete) == repo.Keys - Elements(plan.toKeep)
    ensures Loaded(loaded, eager, plan)
  {
    forall d ensures d in plan.toDelete <==> d in repo && d !in plan.toKeep {
      assert d in Elements(plan.toDelete) <==> d in repo.Keys - Elements(plan.toKeep);
    }
  }

  /** Locks come back: at every moment of every run of every plan, the locks of what is kept, and of
      what no deletion was started for, are as they were; once no worker is busy with it, so are those
      of everything that was not deleted, except where the registry failed to restore them. */
  lemma PruneLocks(p: Pruner, repo: Repo, rule: RepoRule, now: int, locked: set<string>, protectsLastTag: bool,
                   plan: Plan, run: Run)
    requires WellKeyed(repo) && Unloaded(repo) && plan.Planned?
    requires PlanFor(p, repo, rule, now, locked, protectsLastTag, plan)
    requires Carries(repo, LoadedRepo(p, repo, rule, now, locked), plan, run)
    requires OneOwner(WithTagLocks(repo, repo.Keys, locked))
    ensures LocksKept(repo, LoadedRepo(p, repo, rule, now, locked), WithTagLocks(repo, repo.Keys, locked), plan, run)
  {
    hide *;
    PlanLoaded(p, repo, rule, now, locked, protectsLastTag, plan);
    var loaded, eager := LoadedRepo(p, repo, rule, now, locked), WithTagLocks(repo, repo.Keys, locked);
    CarriesMeans(repo, loaded, plan, run);
    if plan.whole {
      PlanSafe(p, repo, rule, now, locked, protectsLastTag, plan);
    }
    if !run.Unordered? {
      forall d, t | d in eager && IsLockOf(eager[d], t)
        ensures LockKept(run, StateAfter(repo, loaded, plan, run), eager[d], d in plan.toKeep, t)
      {
        if run.Piecewise? {
          PiecewiseLock(repo, loaded, eager, plan, run, d, t);
        } else {
          OutrightLock(repo, loaded, eager, plan, run, d, t);
        }
      }
    }
    LocksKeptMeans(repo, loaded, eager, plan, run);
  }

  lemma LocksKeptMeans(repo: Repo, loaded: Repo, eager: Repo, plan: Plan, run: Run)
    requires WellKeyed(repo) && WellKeyed(loaded) && plan.Planned? && Carries(repo, loaded, plan, run)
    requires !run.Unordered? ==>
               forall d, t | d in eager && IsLockOf(eager[d], t) ::
                 LockKept(run, StateAfter(repo, loaded, plan, run), eager[d], d in plan.toKeep, t)
    ensures LocksKept(repo, loaded, eager, plan, run)
  {
    hide LockKept, Carries, StateAfter, IsLockOf, WellKeyed;
  }

  // ----- what is left

  lemma PiecewiseSafe(p: Pruner, repo: Repo, rule: RepoRule, now: int, locked: set<string>, protectsLastTag: bool,
                      plan: Plan,
                      job: Job, before: State, events: seq<Event>)
    requires WellKeyed(repo) && Unloaded(repo) && plan.Planned? && !plan.whole
    requires PlanFor(p, repo, rule, now, locked, protectsLastTag, plan)
    requires RunOf(repo, Elements(plan.toKeep), job, before, events)
    ensures var present, kept := After(job, before, events).present, Elements(plan.toKeep);
            && Whole(repo, present) && Signed(repo, kept, rule.deleteOrphaned, present)
            && (forall d | d in repo && Untouchable(p, repo[d], now, locked) :: Held(present, repo[d].doc))
            && (protectsLastTag && TaggedIn(repo, repo.Keys) != {} ==> TagPresent(repo, present))
  {
    var present := After(job, before, events).present;
    hide *;
    var kept := Elements(plan.toKeep);
    PlanSafe(p, repo, rule, now, locked, protectsLastTag, plan);
    DependenciesStay(repo, kept, rule.deleteOrphaned, job, before, events);
    ReferrersStay(repo, kept, rule.deleteOrphaned, job, before, events);
    AllKeptStay(repo, kept, job, before, events);
    SomeStay(p, repo, now, locked, plan.toKeep, present);
    TagStays(repo, kept, present);
  }

  ghost predicate TagPresent(repo: Repo, present: set<Ref>)
  {
    exists d :: d in repo && |repo[d].doc.tags| > 0 && Held(present, repo[d].doc)
  }

  /** All of a repository, or nothing of it. */
  lemma OutrightSafe(repo: Repo, kept: set<Digest>, deleteOrphaned: bool, present: set<Ref>)
    requires present == {} || present == AllRefs(repo, repo.Keys)
    ensures Whole(repo, present) && Signed(repo, kept, deleteOrphaned, present)
  {
    hide Deps, Referrers;
  }

  lemma HoldsAll(repo: Repo, loaded: Repo, plan: Plan, run: Run)
    requires WellKeyed(repo) && WellKeyed(loaded) && plan.Planned? && Carries(repo, loaded, plan, run)
    ensures plan.whole <==> run.Outright?
    ensures !run.Piecewise? ==>
              Holds(repo, loaded, plan, run) == {} || Holds(repo, loaded, plan, run) == AllRefs(repo, repo.Keys)
    ensures run.Unordered? ==> Holds(repo, loaded, plan, run) == AllRefs(repo, repo.Keys)
    ensures run.Piecewise? ==>
              && RunOf(repo, Elements(plan.toKeep), run.job, run.before, run.events)
              && Holds(repo, loaded, plan, run) == After(run.job, run.before, run.events).present
  {
    hide RunOf, Initial, After, JobOf, Lists, WellKeyed, AllRefs;
  }

  lemma EveryHeld(repo: Repo)
    ensures AllHeld(repo, repo.Keys, AllRefs(repo, repo.Keys))
    ensures TaggedIn(repo, repo.Keys) != {} ==> TagPresent(repo, AllRefs(repo, repo.Keys))
  {
    var present := AllRefs(repo, repo.Keys);
    forall d | d in repo ensures Held(present, repo[d].doc) {
      assert RefOf(repo, d) in present;
      HeldRef(repo, present, d);
    }
    hide Held;
    if TaggedIn(repo, repo.Keys) != {} {
      var d :| d in TaggedIn(repo, repo.Keys);
      assert Held(present, repo[d].doc);
    }
  }

  lemma HeldIn(repo: Repo, present: set<Ref>)
    requires AllHeld(repo, repo.Keys, present)
    ensures forall d | d in repo :: Held(present, repo[d].doc)
  {
  }

  /** At every moment of every run of every plan, whatever fails, in whatever order, wherever it is
      interrupted: no remaining manifest has lost a child; no remaining subject has lost a referrer
      that had to follow it; nothing protected is gone; a tag remains where one must, unless the plan
      deletes the repository outright; and, as a tag names one manifest, locks come back. */
  lemma PruneSafe(p: Pruner, repo: Repo, rule: RepoRule, now: int, locked: set<string>, protectsLastTag: bool,
                  plan: Plan, run: Run)
    requires WellKeyed(repo) && Unloaded(repo) && plan.Planned?
    requires PlanFor(p, repo, rule, now, locked, protectsLastTag, plan)
    requires Carries(repo, LoadedRepo(p, repo, rule, now, locked), plan, run)
    ensures var loaded, eager := LoadedRepo(p, repo, rule, now, locked), WithTagLocks(repo, repo.Keys, locked);
            var present, kept := Holds(repo, loaded, plan, run), Elements(plan.toKeep);
            && Whole(repo, present) && Signed(repo, kept, rule.deleteOrphaned, present)
            && (forall d | d in repo && Untouchable(p, repo[d], now, locked) :: Held(present, repo[d].doc))
            && (protectsLastTag && !plan.whole && TaggedIn(repo, repo.Keys) != {} ==> TagPresent(repo, present))
            && (OneOwner(eager) ==> LocksKept(repo, loaded, eager, plan, run))
  {
    hide *;
    PlanLoaded(p, repo, rule, now, locked, protectsLastTag, plan);
    var loaded, eager := LoadedRepo(p, repo, rule, now, locked), WithTagLocks(repo, repo.Keys, locked);
    HoldsAll(repo, loaded, plan, run);
    if run.Piecewise? {
      PiecewiseSafe(p, repo, rule, now, locked, protectsLastTag, plan, run.job, run.before, run.events);
    } else {
      OutrightSafe(repo, Elements(plan.toKeep), rule.deleteOrphaned, Holds(repo, loaded, plan, run));
      EveryHeld(repo);
      HeldIn(repo, AllRefs(repo, repo.Keys));
      if plan.whole {
        WholeUnprotected(p, repo, rule, now, locked, protectsLastTag, plan);
      }
    }
    if OneOwner(eager) {
      PruneLocks(p, repo, rule, now, locked, protectsLastTag, plan, run);
    }
  }

  lemma SomeStay(p: Pruner, repo: Repo, now: int, locked: set<string>, toKeep: seq<Digest>, present: set<Ref>)
    requires AllHeld(repo, Elements(toKeep), present)
    requires forall d | d in repo && Untouchable(p, repo[d], now, locked) :: d in toKeep
    ensures forall d | d in repo && Untouchable(p, repo[d], now, locked) :: Held(present, repo[d].doc)
  {
    hide Untouchable, Held;
  }

  lemma TagStays(repo: Repo, kept: set<Digest>, present: set<Ref>)
    requires AllHeld(repo, kept, present)
    ensures TaggedIn(repo, kept) != {} ==> TagPresent(repo, present)
  {
    if TaggedIn(repo, kept) != {} {
      var d :| d in TaggedIn(repo, kept);
      assert Held(present, repo[d].doc);
    }
  }
}
