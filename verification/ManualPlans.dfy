/** Manual plans: what deleting chosen digests comes to (PrepareManifests and expandSelection in
    internal/pruner/selection.go, with pruneRepository in internal/pruner/pruner.go). */
module ManualPlans {
  import opened Manifests
  import opened Closures
  import opened Sums
  import opened Rules
  import opened Retention
  import opened TagLocks
  import opened Decisions
  import opened Prune
  import opened Selection

  /** What a manual plan spares: all that something unselected, or untouchable, needs. */
  ghost function Spared(p: Pruner, repo: Repo, now: int, locked: set<string>): set<Digest>
    requires p.selection.Some?
  {
    Reach(KeepEdges(repo, false), SparedFirst(p, repo, now, locked))
  }

  ghost function SparedFirst(p: Pruner, repo: Repo, now: int, locked: set<string>): set<Digest>
    requires p.selection.Some?
  {
    set d | d in repo && (d !in p.selection.value || Untouchable(p, repo[d], now, locked))
  }

  lemma SparedProtected(p: Pruner, repo: Repo, now: int, locked: set<string>)
    requires p.selection.Some?
    ensures SparedFirst(p, repo, now, locked) ==
            (repo.Keys - p.selection.value) + AllProtected(p, WithTagLocks(repo, repo.Keys, locked), now)
  {
    forall d
      ensures d in AllProtected(p, WithTagLocks(repo, repo.Keys, locked), now) <==>
              d in repo && Untouchable(p, repo[d], now, locked)
    {
      UntouchableExact(p, repo, now, locked, d);
    }
    hide Untouchable, AllProtected, WithTagLocks;
  }

  lemma ManualDecision(p: Pruner, repo: Repo, repository: string, now: int, locked: set<string>)
    requires WellKeyed(repo) && Unloaded(repo) && p.selection.Some? && p.selection.value <= repo.Keys
    ensures LazyDecision(p, repo, ManualRule(repository), now, locked) == Some(Spared(p, repo, now, locked))
  {
    var rule, eager := ManualRule(repository), WithTagLocks(repo, repo.Keys, locked);
    hide Decision, LazyDecision, WithTagLocks, KeepEdges, Reach, AllProtected, Unloaded;
    KeyedAnyway(repo, repo.Keys, locked);
    assert !LazyGap(p, repo, eager, rule, now) by {
      hide Fails, Rooted, Kept;
    }
    UnloadedMeans(repo);
    LazyLocksExact(p, repo, rule, now, locked);
    SameGraph(repo, eager, false);
    SameKeys(repo, eager);
    ManualPlanExact(p, eager, repository, now);
    SparedProtected(p, repo, now, locked);
  }

  /** Exactly what the best tagged manifest does not keep, beside what is spared anyway, is deleted. */
  ghost predicate LeavesLastTag(p: Pruner, repo: Repo, rule: RepoRule, now: int, spared: set<Digest>,
                                deleted: set<Digest>)
  {
    exists last :: BestTagged(repo, last) && deleted == repo.Keys - WithLastTag(p, repo, rule, now, spared, last)
  }

  lemma UnloadedMeans(repo: Repo)
    requires Unloaded(repo)
    ensures forall d | d in repo :: repo[d].lockedTags == []
  {
  }

  /** What a manual plan deletes of what the requested digests expand to: exactly what nothing
      unselected and nothing protected needs; less, where the registry insists on a tag and none would
      be left, the best tagged manifest with all that keeping it keeps. */
  ghost predicate DeletesExactly(p: Pruner, repo: Repo, repository: string, now: int, locked: set<string>,
                                 protectsLastTag: bool, requested: set<Digest>, deleted: set<Digest>)
    requires WellKeyed(repo) && p.selection.Some? && Decision(p, repo, ManualRule(repository), now).Some?
  {
    var spared, second := Spared(p, repo, now, locked), LoadedRepo(p, repo, ManualRule(repository), now, locked);
    && deleted <= Reach(ScopeEdges(repo), requested) - spared
    && if protectsLastTag && spared != {} && NeedsLastTag(second, spared)
       then LeavesLastTag(p, second, ManualRule(repository), now, spared, deleted)
       else deleted == Reach(ScopeEdges(repo), requested) - spared
  }

  /** Every manual plan is exact. */
  lemma ManualPlanDeletes(p: Pruner, repo: Repo, repository: string, now: int, locked: set<string>,
                          protectsLastTag: bool,
                          plan: Plan, requested: set<Digest>)
    requires WellKeyed(repo) && Unloaded(repo) && plan.Planned?
    requires p.selection == Some(Reach(ScopeEdges(repo), requested)) && p.selection.value <= repo.Keys
    requires PlanFor(p, repo, ManualRule(repository), now, locked, protectsLastTag, plan)
    ensures Decision(p, repo, ManualRule(repository), now).Some?
    ensures DeletesExactly(p, repo, repository, now, locked, protectsLastTag, requested, Elements(plan.toDelete))
  {
    hide *;
    ManualDecision(p, repo, repository, now, locked);
    LazyFirst(p, repo, ManualRule(repository), now, locked);
    ManualKeeps(p, repo, repository, now, locked, protectsLastTag, plan);
    SparedUnselected(p, repo, now, locked);
    ManualExact(p, repo, repository, now, locked, protectsLastTag, requested, Elements(plan.toDelete));
  }

  lemma ManualExact(p: Pruner, repo: Repo, repository: string, now: int, locked: set<string>, protectsLastTag: bool,
                    requested: set<Digest>, deleted: set<Digest>)
    requires WellKeyed(repo) && p.selection.Some? && Decision(p, repo, ManualRule(repository), now).Some?
    requires p.selection.value == Reach(ScopeEdges(repo), requested) <= repo.Keys
    requires var spared := Spared(p, repo, now, locked);
             var second := LoadedRepo(p, repo, ManualRule(repository), now, locked);
             && spared <= repo.Keys - deleted && deleted <= repo.Keys && repo.Keys - p.selection.value <= spared
             && if protectsLastTag && spared != {} && NeedsLastTag(second, spared)
                then LeavesLastTag(p, second, ManualRule(repository), now, spared, deleted)
                else deleted == repo.Keys - spared
    ensures DeletesExactly(p, repo, repository, now, locked, protectsLastTag, requested, deleted)
  {
    hide Spared, LoadedRepo, LeavesLastTag, NeedsLastTag, Reach, ScopeEdges, Decision;
    var spared := Spared(p, repo, now, locked);
    forall d | d in repo && d !in spared ensures d in p.selection.value {
      assert d in repo.Keys - p.selection.value ==> d in spared;
    }
  }

  lemma ManualKeeps(p: Pruner, repo: Repo, repository: string, now: int, locked: set<string>, protectsLastTag: bool,
                    plan: Plan)
    requires WellKeyed(repo) && p.selection.Some? && plan.Planned?
    requires LazyDecision(p, repo, ManualRule(repository), now, locked) == Some(Spared(p, repo, now, locked))
    requires PlanFor(p, repo, ManualRule(repository), now, locked, protectsLastTag, plan)
    ensures var spared := Spared(p, repo, now, locked);
            var second := LoadedRepo(p, repo, ManualRule(repository), now, locked);
            && spared <= repo.Keys - Elements(plan.toDelete) && Elements(plan.toDelete) <= repo.Keys
            && if protectsLastTag && spared != {} && NeedsLastTag(second, spared)
               then LeavesLastTag(p, second, ManualRule(repository), now, spared, Elements(plan.toDelete))
               else Elements(plan.toDelete) == repo.Keys - spared
  {
    hide LazyDecision, LoadedRepo, Spared, BestTagged, NeedsLastTag, KeepEdges, Reach;
    var kept, decided := Elements(plan.toKeep), Spared(p, repo, now, locked);
    assert kept <= repo.Keys && Elements(plan.toDelete) == repo.Keys - kept;
    var second := LoadedRepo(p, repo, ManualRule(repository), now, locked);
    if protectsLastTag && decided != {} && NeedsLastTag(second, decided) {
      var last :|
        BestTagged(second, last) && kept == WithLastTag(p, second, ManualRule(repository), now, decided, last);
      ReachLeast(KeepEdges(second, false), decided + {last} + ProtectedReferrers(p, second, now));
      LoadedKeys(p, repo, ManualRule(repository), now, locked);
    }
  }

  lemma LoadedKeys(p: Pruner, repo: Repo, rule: RepoRule, now: int, locked: set<string>)
    requires WellKeyed(repo) && Decision(p, repo, rule, now).Some?
    ensures LoadedRepo(p, repo, rule, now, locked).Keys == repo.Keys
  {
    hide Decision, LockCandidates;
  }

  lemma SparedUnselected(p: Pruner, repo: Repo, now: int, locked: set<string>)
    requires p.selection.Some?
    ensures repo.Keys - p.selection.value <= Spared(p, repo, now, locked)
  {
    ReachLeast(KeepEdges(repo, false), SparedFirst(p, repo, now, locked));
    hide Untouchable;
  }

  // ----- from the requested digests to the plan

  /** The tag locks of a manifest to delete cannot be looked up. */
  ghost predicate LocksUnknown(p: Pruner, repo: Repo, repository: string, now: int, lookup: TagLookup)
    requires WellKeyed(repo)
  {
    var first := Decision(p, repo, ManualRule(repository), now);
    first.Some? && !(repo.Keys <= first.value) &&
    LoadStops(repo, LockCandidates(p, repo, ManualRule(repository), first.value), lookup)
  }

  lemma ManualTolerates(repo: Repo, repository: string)
    ensures !Reported(repo, ManualRule(repository))
  {
  }

  /** Nothing else leaves a manual plan undecided: it tolerates missing manifests. */
  lemma ManualStuck(p: Pruner, repo: Repo, repository: string, now: int, protectsLastTag: bool, lookup: TagLookup)
    requires WellKeyed(repo) && Unloaded(repo) && p.selection.Some? && p.selection.value <= repo.Keys
    ensures Stuck(p, repo, ManualRule(repository), now, protectsLastTag, lookup) <==>
            LocksUnknown(p, repo, repository, now, lookup)
  {
    hide Decision, LazyDecision, LoadStops, LockCandidates, LoadedRepo, NeedsLastTag, BestTagged, WithLastTag, Unloaded,
         Spared, LockedNames;
    ManualDecision(p, repo, repository, now, LockedNames(lookup.listing));
    LazyFirst(p, repo, ManualRule(repository), now, LockedNames(lookup.listing));
  }

  datatype ManualPlan = Resolved(plan: Plan) | Unresolved(digest: Digest) | Stopped

  lemma ScopeMarked(raw: Repo)
    ensures ScopeEdges(WithOrphans(raw)) == ScopeEdges(raw)
  {
    var repo := WithOrphans(raw);
    forall d ensures Referrers(repo, d) == Referrers(raw, d) {
    }
  }

  lemma MarkedKeys(raw: Repo)
    ensures WithOrphans(raw).Keys == raw.Keys
  {
  }

  /** Expands the requested digests and plans their deletion. It stops at a digest the expansion reaches
      that is not there, or when tag locks it needs cannot be looked up; a plan deletes exactly what it
      should. */
  method PlanManual(p: Pruner, entries: Entries, repository: string, digests: seq<Digest>, now: int,
                    protectsLastTag: bool,
                    lookup: TagLookup, interrupted: nat -> bool) returns (r: ManualPlan, ghost scoped: Pruner)
    requires Separate(entries) && WellKeyed(View(entries)) && Unloaded(View(entries))
    modifies entries.Values`orphaned, entries.Values`hasOwner, entries.Values`lockedTags
    ensures match r
            case Unresolved(d) =>
              d in Reach(ScopeEdges(old(View(entries))), Elements(digests)) && d !in old(View(entries))
            case Stopped => exists n :: interrupted(n)
            case Resolved(plan) =>
              var repo := WithOrphans(old(View(entries)));
              && WellKeyed(repo)
              && scoped == p.(selection := Some(Reach(ScopeEdges(old(View(entries))), Elements(digests))))
              && !plan.Orphaned?
              && (plan.Empty? <==> entries.Keys == {})
              && (plan.Undecided? ==> LocksUnknown(scoped, repo, repository, now, lookup))
              && (plan.Planned? ==>
                    && Decision(scoped, repo, ManualRule(repository), now).Some?
                    && !LocksUnknown(scoped, repo, repository, now, lookup)
                    && DeletesExactly(scoped, repo, repository, now, LockedNames(lookup.listing), protectsLastTag,
                                      Elements(digests), Elements(plan.toDelete)))
  {
    hide *;
    var raw := View(entries);
    scoped := p;
    OrphansOnly(raw);
    ScopeMarked(raw);
    MarkedKeys(raw);
    var expansion := ExpandSelection(raw, digests, interrupted);
    match expansion {
      case Unavailable(d) => return Unresolved(d), scoped;
      case Interrupted => return Stopped, scoped;
      case Expanded(selected) =>
        var bounded := p.(selection := Some(selected));
        scoped := bounded;
        var plan := PlanRepository(bounded, entries, ManualRule(repository), now, protectsLastTag, lookup);
        ManualTolerates(WithOrphans(raw), repository);
        ManualStuck(scoped, WithOrphans(raw), repository, now, protectsLastTag, lookup);
        if plan.Planned? {
          ManualPlanDeletes(scoped, WithOrphans(raw), repository, now, LockedNames(lookup.listing), protectsLastTag,
                            plan, Elements(digests));
        }
        r := Resolved(plan);
    }
  }
}
