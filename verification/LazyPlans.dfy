/** What loading tag locks lazily means for the finished plan (pruneRepository in
    internal/pruner/pruner.go): the plan is the one that knowing all of them gives, and what it deletes
    has its locks loaded. */
module LazyPlans {
  import opened Manifests
  import opened Closures
  import opened Sums
  import opened Rules
  import opened Retention
  import opened TagLocks
  import opened Decisions
  import opened Prune

  /** A plan for the repository with all tag locks known from the start. */
  ghost predicate EagerPlanFor(p: Pruner, repo: Repo, rule: RepoRule, now: int, locked: set<string>,
                               protectsLastTag: bool, plan: Plan)
    requires WellKeyed(repo) && plan.Planned?
  {
    var decided := EagerDecision(p, repo, rule, now, locked);
    && decided.Some? && plan.whole == (decided.value == {})
    && Keeps(p, WithTagLocks(repo, repo.Keys, locked), rule, now, decided.value, protectsLastTag,
             Elements(plan.toKeep))
    && Distinct(plan.toKeep) && Elements(plan.toKeep) <= repo.Keys
    && Distinct(plan.toDelete) && Elements(plan.toDelete) == repo.Keys - Elements(plan.toKeep)
  }

  // ----- the last tag

  lemma LoadedRelations(p: Pruner, repo: Repo, rule: RepoRule, now: int, locked: set<string>)
    requires WellKeyed(repo) && Unloaded(repo) && Decision(p, repo, rule, now).Some?
    ensures var loaded, eager := LoadedRepo(p, repo, rule, now, locked), WithTagLocks(repo, repo.Keys, locked);
            && WellKeyed(loaded) && WellKeyed(eager)
            && SameButLocks(repo, loaded) && SameButLocks(repo, eager) && SameButLocks(loaded, eager)
            && forall d | d in loaded && loaded[d].IsLocked() :: eager[d].IsLocked()
  {
    hide Decision, WellKeyed;
    var candidates := LockCandidates(p, repo, rule, Decision(p, repo, rule, now).value);
    hide LockCandidates;
    LockRelations(repo, candidates, locked);
    KeyedAnyway(repo, candidates, locked);
    KeyedAnyway(repo, repo.Keys, locked);
  }

  /** Referrers that a tag lock protects are kept by the decision already, so keeping the last tag
      adds the same with the locks that were loaded as with all of them. */
  lemma LastTagSame(p: Pruner, repo: Repo, rule: RepoRule, now: int, locked: set<string>, last: Digest)
    requires WellKeyed(repo) && Unloaded(repo) && LazyDecision(p, repo, rule, now, locked).Some?
    ensures Decision(p, repo, rule, now).Some?
    ensures var decided := LazyDecision(p, repo, rule, now, locked).value;
            WithLastTag(p, LoadedRepo(p, repo, rule, now, locked), rule, now, decided, last) ==
            WithLastTag(p, WithTagLocks(repo, repo.Keys, locked), rule, now, decided, last)
  {
    hide *;
    UnloadedTags(repo);
    LazyLocksSafe(p, repo, rule, now, locked);
    LoadedRelations(p, repo, rule, now, locked);
    var loaded, eager := LoadedRepo(p, repo, rule, now, locked), WithTagLocks(repo, repo.Keys, locked);
    MoreProtection(p, loaded, eager, rule, now);
    SameGraph(loaded, eager, rule.deleteOrphaned);
    ReferrersProtected(p, eager, now);
    SameSeeds(p, loaded, eager, rule, now, LazyDecision(p, repo, rule, now, locked).value, last);
  }

  lemma UnloadedTags(repo: Repo)
    requires Unloaded(repo)
    ensures forall d | d in repo :: repo[d].lockedTags == []
  {
  }

  lemma ReferrersProtected(p: Pruner, repo: Repo, now: int)
    ensures ProtectedReferrers(p, repo, now) <= AllProtected(p, repo, now)
  {
    hide Protected;
  }

  lemma SameSeeds(p: Pruner, loaded: Repo, eager: Repo, rule: RepoRule, now: int, decided: set<Digest>, last: Digest)
    requires KeepEdges(loaded, rule.deleteOrphaned) == KeepEdges(eager, rule.deleteOrphaned)
    requires ProtectedReferrers(p, loaded, now) <= ProtectedReferrers(p, eager, now) <= decided
    ensures WithLastTag(p, loaded, rule, now, decided, last) == WithLastTag(p, eager, rule, now, decided, last)
  {
    hide KeepEdges, ProtectedReferrers, Reach;
    assert decided + {last} + ProtectedReferrers(p, loaded, now) ==
           decided + {last} + ProtectedReferrers(p, eager, now);
  }

  /** The choice of the last tag does not look at tag locks. */
  lemma SameChoice(repo: Repo, other: Repo, kept: set<Digest>, last: Digest)
    requires SameButLocks(repo, other)
    ensures NeedsLastTag(repo, kept) <==> NeedsLastTag(other, kept)
    ensures BestTagged(repo, last) <==> BestTagged(other, last)
  {
    assert TaggedIn(repo, kept) == TaggedIn(other, kept);
    assert TaggedIn(repo, repo.Keys) == TaggedIn(other, other.Keys);
    hide TaggedIn;
    assert forall d, e | d in repo && e in repo :: Preferred(repo[d], repo[e]) <==> Preferred(other[d], other[e]);
    hide Preferred;
  }

  lemma KeepsSame(p: Pruner, repo: Repo, other: Repo, rule: RepoRule, now: int, decided: set<Digest>,
                  protectsLastTag: bool, kept: set<Digest>)
    requires NeedsLastTag(repo, decided) <==> NeedsLastTag(other, decided)
    requires forall last :: BestTagged(repo, last) <==> BestTagged(other, last)
    requires forall last ::
               WithLastTag(p, repo, rule, now, decided, last) == WithLastTag(p, other, rule, now, decided, last)
    requires forall s :: Fails(repo, rule, s) <==> Fails(other, rule, s)
    ensures Keeps(p, repo, rule, now, decided, protectsLastTag, kept) <==>
            Keeps(p, other, rule, now, decided, protectsLastTag, kept)
    ensures LastTagFails(p, repo, rule, now, decided) <==> LastTagFails(p, other, rule, now, decided)
  {
    hide NeedsLastTag, BestTagged, WithLastTag, Fails;
  }

  /** Once the lazy run decided, keeping the last tag comes to the same as with all tag locks known. */
  lemma LazyKeeps(p: Pruner, repo: Repo, rule: RepoRule, now: int, locked: set<string>, protectsLastTag: bool,
                  kept: set<Digest>)
    requires WellKeyed(repo) && Unloaded(repo) && LazyDecision(p, repo, rule, now, locked).Some?
    ensures Decision(p, repo, rule, now).Some?
    ensures var decided := LazyDecision(p, repo, rule, now, locked).value;
            var loaded, eager := LoadedRepo(p, repo, rule, now, locked), WithTagLocks(repo, repo.Keys, locked);
            && (Keeps(p, loaded, rule, now, decided, protectsLastTag, kept) <==>
                Keeps(p, eager, rule, now, decided, protectsLastTag, kept))
            && (LastTagFails(p, loaded, rule, now, decided) <==> LastTagFails(p, eager, rule, now, decided))
  {
    hide *;
    LastTagSame(p, repo, rule, now, locked, "");
    LoadedRelations(p, repo, rule, now, locked);
    var decided := LazyDecision(p, repo, rule, now, locked).value;
    var loaded, eager := LoadedRepo(p, repo, rule, now, locked), WithTagLocks(repo, repo.Keys, locked);
    forall last
      ensures WithLastTag(p, loaded, rule, now, decided, last) == WithLastTag(p, eager, rule, now, decided, last)
      ensures BestTagged(loaded, last) <==> BestTagged(eager, last)
      ensures NeedsLastTag(loaded, decided) <==> NeedsLastTag(eager, decided)
    {
      LastTagSame(p, repo, rule, now, locked, last);
      SameChoice(loaded, eager, decided, last);
    }
    SameChoice(loaded, eager, decided, "");
    forall s ensures Fails(loaded, rule, s) <==> Fails(eager, rule, s) {
      SameFails(loaded, eager, rule, s);
    }
    KeepsSame(p, loaded, eager, rule, now, decided, protectsLastTag, kept);
  }

  // ----- the plan

  /** In a gap one of the two does not decide. */
  lemma GapUndecided(p: Pruner, repo: Repo, rule: RepoRule, now: int, locked: set<string>)
    requires WellKeyed(repo) && WellKeyed(WithTagLocks(repo, repo.Keys, locked))
    requires LazyGap(p, repo, WithTagLocks(repo, repo.Keys, locked), rule, now)
    requires SameButLocks(repo, WithTagLocks(repo, repo.Keys, locked))
    ensures LazyDecision(p, repo, rule, now, locked).None? || EagerDecision(p, repo, rule, now, locked).None?
  {
    hide Rooted, Kept, Forced, Fails, WithTagLocks, LockCandidates, SameButLocks;
    var eager := WithTagLocks(repo, repo.Keys, locked);
    SameFails(repo, eager, rule, Rooted(p, eager, rule, now));
  }

  /** A plan made by loading tag locks lazily is a plan made with all of them known, and the other way
      round, exactly outside the gaps; in a gap they share no plan. */
  lemma LazyPlanExact(p: Pruner, repo: Repo, rule: RepoRule, now: int, locked: set<string>, protectsLastTag: bool,
                      plan: Plan)
    requires WellKeyed(repo) && Unloaded(repo) && plan.Planned?
    ensures var eager := WithTagLocks(repo, repo.Keys, locked);
            var lazily := PlanFor(p, repo, rule, now, locked, protectsLastTag, plan);
            var eagerly := EagerPlanFor(p, repo, rule, now, locked, protectsLastTag, plan);
            && WellKeyed(eager)
            && (lazily || eagerly ==> (lazily && eagerly <==> !LazyGap(p, repo, eager, rule, now)))
  {
    hide *;
    var eager := WithTagLocks(repo, repo.Keys, locked);
    UnloadedTags(repo);
    KeyedAnyway(repo, repo.Keys, locked);
    LazyLocksExact(p, repo, rule, now, locked);
    PlanMeans(p, repo, rule, now, locked, protectsLastTag, plan);
    if LazyGap(p, repo, eager, rule, now) {
      GapUndecided(p, repo, rule, now, locked);
    } else if LazyDecision(p, repo, rule, now, locked).Some? {
      LazyKeeps(p, repo, rule, now, locked, protectsLastTag, Elements(plan.toKeep));
    }
  }

  lemma PlanMeans(p: Pruner, repo: Repo, rule: RepoRule, now: int, locked: set<string>, protectsLastTag: bool,
                  plan: Plan)
    requires WellKeyed(repo) && plan.Planned?
    ensures var lazy, eager := LazyDecision(p, repo, rule, now, locked), EagerDecision(p, repo, rule, now, locked);
            var rest := && Distinct(plan.toKeep) && Elements(plan.toKeep) <= repo.Keys && Distinct(plan.toDelete)
                        && Elements(plan.toDelete) == repo.Keys - Elements(plan.toKeep);
            && (lazy.Some? ==> Decision(p, repo, rule, now).Some?)
            && (PlanFor(p, repo, rule, now, locked, protectsLastTag, plan) <==>
                && rest && lazy.Some? && plan.whole == (lazy.value == {})
                && Keeps(p, LoadedRepo(p, repo, rule, now, locked), rule, now, lazy.value, protectsLastTag,
                         Elements(plan.toKeep)))
            && (EagerPlanFor(p, repo, rule, now, locked, protectsLastTag, plan) <==>
                && rest && eager.Some? && plan.whole == (eager.value == {})
                && Keeps(p, WithTagLocks(repo, repo.Keys, locked), rule, now, eager.value, protectsLastTag,
                         Elements(plan.toKeep)))
  {
    hide Decision, Keeps, WithTagLocks, LockCandidates, EagerDecision;
  }

  // ----- the locks of what is deleted

  /** Every manifest a plan deletes has exactly its locked tags loaded, and no manifest any other. */
  lemma DeletedLoaded(p: Pruner, repo: Repo, rule: RepoRule, now: int, locked: set<string>, protectsLastTag: bool,
                      plan: Plan)
    requires WellKeyed(repo) && Unloaded(repo) && plan.Planned?
    requires PlanFor(p, repo, rule, now, locked, protectsLastTag, plan)
    ensures Decision(p, repo, rule, now).Some?
    ensures var loaded, eager := LoadedRepo(p, repo, rule, now, locked), WithTagLocks(repo, repo.Keys, locked);
            && loaded.Keys == eager.Keys == repo.Keys
            && (forall d | d in plan.toDelete :: d in repo && loaded[d] == eager[d])
            && (forall d, t | d in plan.toDelete ::
                  t in loaded[d].lockedTags <==> t in repo[d].doc.tags && t in locked)
            && (forall d, t | d in repo && t in loaded[d].lockedTags :: t in eager[d].lockedTags)
  {
    hide *;
    UnloadedTags(repo);
    PlanMeans(p, repo, rule, now, locked, protectsLastTag, plan);
    LazyLocksSafe(p, repo, rule, now, locked);
    var first, second := Decision(p, repo, rule, now).value, LazyDecision(p, repo, rule, now, locked).value;
    var candidates := LockCandidates(p, repo, rule, first);
    KeepsAll(p, LoadedRepo(p, repo, rule, now, locked), rule, now, second, protectsLastTag, Elements(plan.toKeep));
    LoadedCandidates(repo, candidates, locked);
    LoadedMeans(p, repo, rule, now, locked);
    forall d | d in plan.toDelete ensures d in repo && d in candidates {
      ElementsMean(plan.toDelete, d);
      assert d !in second;
    }
  }

  lemma ElementsMean<T(!new)>(s: seq<T>, x: T)
    ensures x in Elements(s) <==> x in s
  {
  }

  lemma LoadedMeans(p: Pruner, repo: Repo, rule: RepoRule, now: int, locked: set<string>)
    requires WellKeyed(repo) && Decision(p, repo, rule, now).Some?
    ensures LoadedRepo(p, repo, rule, now, locked) ==
            WithTagLocks(repo, LockCandidates(p, repo, rule, Decision(p, repo, rule, now).value), locked)
  {
  }

  lemma KeepsAll(p: Pruner, repo: Repo, rule: RepoRule, now: int, decided: set<Digest>, protectsLastTag: bool,
                 kept: set<Digest>)
    requires Keeps(p, repo, rule, now, decided, protectsLastTag, kept)
    ensures decided <= kept
  {
    if kept != decided {
      var last :| BestTagged(repo, last) && kept == WithLastTag(p, repo, rule, now, decided, last);
      ReachLeast(KeepEdges(repo, rule.deleteOrphaned), decided + {last} + ProtectedReferrers(p, repo, now));
    }
  }

  lemma LoadedCandidates(repo: Repo, candidates: set<Digest>, locked: set<string>)
    requires forall d | d in repo :: repo[d].lockedTags == []
    ensures var loaded, eager := WithTagLocks(repo, candidates, locked), WithTagLocks(repo, repo.Keys, locked);
            && loaded.Keys == eager.Keys == repo.Keys
            && (forall d | d in repo && d in candidates :: loaded[d] == eager[d])
            && (forall d, t | d in repo && d in candidates ::
                  t in loaded[d].lockedTags <==> t in repo[d].doc.tags && t in locked)
            && (forall d, t | d in repo && t in loaded[d].lockedTags :: t in eager[d].lockedTags)
  {
    forall d | d in repo ensures forall t :: t in LockedTagsOf(repo[d].doc.tags, locked) <==>
                                               t in repo[d].doc.tags && t in locked
    {
      LockedTagsExact(repo[d].doc.tags, locked);
    }
    hide LockedTagsOf;
  }
}
