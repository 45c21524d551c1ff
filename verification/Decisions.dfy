/** What every decision guarantees, and why loading tag locks lazily loses nothing
    (decide and the two passes of pruneRepository in internal/pruner/pruner.go). */
module Decisions {
  import opened Manifests
  import opened Closures
  import opened Order
  import opened Rules
  import opened Evaluation
  import opened Running
  import opened Retention
  import opened TagLocks

  ghost function AllProtected(p: Pruner, repo: Repo, now: int): set<Digest>
  {
    set d | d in repo && Protected(p, repo[d], now)
  }

  /** Every decision keeps manifests of the repository only, is closed under present children
      and followed referrers, and keeps everything protected or out of scope. */
  lemma DecisionSound(p: Pruner, repo: Repo, rule: RepoRule, now: int)
    requires WellKeyed(repo) && Decision(p, repo, rule, now).Some?
    ensures var kept := Decision(p, repo, rule, now).value;
            && kept <= repo.Keys
            && Closed(KeepEdges(repo, rule.deleteOrphaned), kept)
            && AllProtected(p, repo, now) <= kept
            && ProtectedReferrers(p, repo, now) <= kept && FirstSeeds(p, repo, rule, now) <= kept
            && (forall d | d in repo && MustStay(p, repo[d], now) :: d in kept)
            && forall d | d in repo && p.selection.Some? && d !in p.selection.value :: d in kept
  {
    forall d | d in repo ensures d in AllProtected(p, repo, now) <==> MustStay(p, repo[d], now) {
      ProtectedExact(p, repo[d], now);
    }
    var edges := KeepEdges(repo, rule.deleteOrphaned);
    var seeds := FirstSeeds(p, repo, rule, now) + ProtectedReferrers(p, repo, now);
    ReachLeast(edges, seeds);
    ReachWithin(edges, seeds, repo.Keys);
    EverySeed(p, repo, rule, now);
  }

  /** What may never be deleted, by the fields of the manifest and the locked tags of its repository:
      a manifest without an update time, or updated too recently; one that runs; and, unless locked ones
      are included, one that is locked or carries a locked tag. */
  ghost predicate Untouchable(p: Pruner, m: Manifest, now: int, locked: set<string>)
  {
    || m.doc.updated == 0 || (p.keepYounger > 0 && m.doc.updated + p.keepYounger > now)
    || Runs(p.protect, m, 0)
    || (!p.includeLocked && (m.doc.locked || exists t :: t in m.doc.tags && t in locked))
  }

  /** That is exactly what is protected once all tag locks are known. */
  lemma UntouchableExact(p: Pruner, repo: Repo, now: int, locked: set<string>, d: Digest)
    ensures d in AllProtected(p, WithTagLocks(repo, repo.Keys, locked), now) <==>
            d in repo && Untouchable(p, repo[d], now, locked)
  {
    if d in repo {
      var eager := WithTagLocks(repo, repo.Keys, locked);
      ProtectedExact(p, eager[d], now);
      LockedTagsExact(repo[d].doc.tags, locked);
      SameRuns(p.protect, repo[d], eager[d].lockedTags, 0);
      hide Runs, Protected, LockedTagsOf;
      assert eager[d] == repo[d].(lockedTags := LockedTagsOf(repo[d].doc.tags, locked));
    }
  }

  lemma EverySeed(p: Pruner, repo: Repo, rule: RepoRule, now: int)
    requires WellKeyed(repo)
    ensures AllProtected(p, repo, now) <= FirstSeeds(p, repo, rule, now) + ProtectedReferrers(p, repo, now)
    ensures forall d | d in repo && !p.InScope(d) :: d in FirstSeeds(p, repo, rule, now)
  {
    hide RulesKeep, Protected;
    forall d | d in AllProtected(p, repo, now)
      ensures d in FirstSeeds(p, repo, rule, now) + ProtectedReferrers(p, repo, now)
    {
      assert DocsOf(repo)[d].digest == d;
      if !repo[d].doc.IsReferrer() {
        assert IsKept(p, repo, rule, now, d);
      }
    }
  }

  /** Nothing kept, which deletes the repository outright, means that nothing in it is protected
      and that the rules keep no image of it. */
  lemma NothingKeptMeansUnprotected(p: Pruner, repo: Repo, rule: RepoRule, now: int)
    requires WellKeyed(repo) && Decision(p, repo, rule, now) == Some({})
    ensures AllProtected(p, repo, now) == {} && FirstSeeds(p, repo, rule, now) == {}
    ensures forall d | d in repo :: !MustStay(p, repo[d], now)
    ensures forall d | d in repo :: p.selection.None? || d in p.selection.value
  {
    hide *;
    DecisionSound(p, repo, rule, now);
  }

  ghost function AgedReferrers(p: Pruner, repo: Repo, now: int): set<Digest>
  {
    set d | d in repo && repo[d].doc.IsReferrer() && ProtectedByAge(p, repo[d], now)
  }

  /** An all-or-nothing rule keeps everything, or just what its age-protected referrers keep; and
      it keeps everything as soon as an image is kept or any manifest is pinned. */
  lemma AllOrNothing(p: Pruner, repo: Repo, rule: RepoRule, now: int)
    requires WellKeyed(repo) && rule.mustDeleteEverything && Decision(p, repo, rule, now).Some?
    ensures var kept := Decision(p, repo, rule, now).value;
            if FirstSeeds(p, repo, rule, now) != {} || exists d | d in repo :: Pinned(p, repo[d])
            then kept == repo.Keys
            else kept == Reach(KeepEdges(repo, rule.deleteOrphaned), AgedReferrers(p, repo, now))
  {
    hide Reach, RulesKeep;
    if !Forced(p, repo, rule, now) {
      assert FirstSeeds(p, repo, rule, now) == {};
      forall d | d in repo ensures !Pinned(p, repo[d]) {
        assert DocsOf(repo)[d].digest == d;
        assert d !in FirstSeeds(p, repo, rule, now);
        assert !IsKept(p, repo, rule, now, d);
      }
      assert ProtectedReferrers(p, repo, now) == AgedReferrers(p, repo, now);
      assert {} + AgedReferrers(p, repo, now) == AgedReferrers(p, repo, now);
    } else if d :| d in repo && Pinned(p, repo[d]) {
    }
  }

  // ----- tag locks change protections only

  ghost predicate SameButLocks(repo: Repo, other: Repo)
  {
    repo.Keys == other.Keys && forall d | d in repo :: other[d] == repo[d].(lockedTags := other[d].lockedTags)
  }

  lemma SameGraph(repo: Repo, other: Repo, deleteOrphaned: bool)
    requires SameButLocks(repo, other)
    ensures DocsOf(repo) == DocsOf(other) && Deps(repo) == Deps(other)
    ensures KeepEdges(repo, deleteOrphaned) == KeepEdges(other, deleteOrphaned)
  {
    assert DocsOf(repo) == DocsOf(other);
    assert Deps(repo) == Deps(other);
    forall d | d in repo
      ensures FollowedReferrers(repo, d, deleteOrphaned) == FollowedReferrers(other, d, deleteOrphaned)
    {
      assert Referrers(repo, d) == Referrers(other, d);
    }
  }

  lemma SameFails(repo: Repo, other: Repo, rule: RepoRule, s: set<Digest>)
    requires SameButLocks(repo, other)
    ensures Fails(repo, rule, s) <==> Fails(other, rule, s)
  {
    forall d | d in repo ensures Broken(repo, d) <==> Broken(other, d) {
    }
  }

  lemma SameRanks(repo: Repo, other: Repo, rule: RepoRule, now: int)
    requires SameButLocks(repo, other)
    ensures forall i | 0 <= i < |rule.tagged| ::
              TaggedRanks(repo, rule.tagged[i], now) == TaggedRanks(other, rule.tagged[i], now)
    ensures forall i | 0 <= i < |rule.untagged| ::
              UntaggedRanks(repo, rule.untagged[i], now) == UntaggedRanks(other, rule.untagged[i], now)
  {
  }

  lemma {:induction false} SameTagVerdict(repo: Repo, other: Repo, rule: RepoRule, now: int, d: Digest, tag: string,
                                          i: nat)
    requires SameButLocks(repo, other) && d in repo && repo[d].doc.digest == d && i <= |rule.tagged|
    ensures TagVerdict(repo, rule, now, repo[d], tag, i) == TagVerdict(other, rule, now, other[d], tag, i)
    decreases |rule.tagged| - i
  {
    if i < |rule.tagged| {
      SameTagVerdict(repo, other, rule, now, d, tag, i + 1);
      SameGraph(repo, other, false);
      SameRanks(repo, other, rule, now);
      hide TaggedRanks, Position;
    }
  }

  lemma {:induction false} SameUntaggedVerdict(repo: Repo, other: Repo, rule: RepoRule, now: int, d: Digest, i: nat)
    requires SameButLocks(repo, other) && d in repo && repo[d].doc.digest == d && i <= |rule.untagged|
    ensures UntaggedVerdict(repo, rule, now, repo[d], i) == UntaggedVerdict(other, rule, now, other[d], i)
    decreases |rule.untagged| - i
  {
    if i < |rule.untagged| {
      SameUntaggedVerdict(repo, other, rule, now, d, i + 1);
      SameGraph(repo, other, false);
      SameRanks(repo, other, rule, now);
      hide UntaggedRanks, Position;
    }
  }

  lemma SameRulesKeep(repo: Repo, other: Repo, rule: RepoRule, now: int, d: Digest)
    requires SameButLocks(repo, other) && d in repo && repo[d].doc.digest == d
    ensures RulesKeep(repo, rule, now, repo[d]) <==> RulesKeep(other, rule, now, other[d])
  {
    SameUntaggedVerdict(repo, other, rule, now, d, 0);
    forall k | 0 <= k < |repo[d].doc.tags|
      ensures TagKept(repo, rule, now, repo[d], k) <==> TagKept(other, rule, now, other[d], k)
    {
      SameTagVerdict(repo, other, rule, now, d, repo[d].doc.tags[k], 0);
    }
  }

  lemma {:induction false} SameRuns(rules: seq<RepoRule>, m: Manifest, locks: seq<string>, i: nat)
    requires i <= |rules|
    ensures Runs(rules, m, i) <==> Runs(rules, m.(lockedTags := locks), i)
    decreases |rules| - i
  {
    if i < |rules| {
      SameRuns(rules, m, locks, i + 1);
      var m' := m.(lockedTags := locks);
      SameUntaggedRuns(rules[i], m, locks, 0);
      forall k | 0 <= k < |m.doc.tags|
        ensures TagRuns(rules[i], m, m.doc.tags[k], 0) <==> TagRuns(rules[i], m', m.doc.tags[k], 0)
      {
        SameTagRuns(rules[i], m, locks, m.doc.tags[k], 0);
      }
    }
  }

  lemma {:induction false} SameTagRuns(rule: RepoRule, m: Manifest, locks: seq<string>, tag: string, i: nat)
    requires i <= |rule.tagged|
    ensures TagRuns(rule, m, tag, i) <==> TagRuns(rule, m.(lockedTags := locks), tag, i)
    decreases |rule.tagged| - i
  {
    if i < |rule.tagged| {
      SameTagRuns(rule, m, locks, tag, i + 1);
    }
  }

  lemma {:induction false} SameUntaggedRuns(rule: RepoRule, m: Manifest, locks: seq<string>, i: nat)
    requires i <= |rule.untagged|
    ensures UntaggedRuns(rule, m, i) <==> UntaggedRuns(rule, m.(lockedTags := locks), i)
    decreases |rule.untagged| - i
  {
    if i < |rule.untagged| {
      SameUntaggedRuns(rule, m, locks, i + 1);
    }
  }

  /** The same locks give a manifest the same protection. */
  lemma SameProtection(p: Pruner, repo: Repo, other: Repo, rule: RepoRule, now: int, d: Digest)
    requires WellKeyed(repo) && WellKeyed(other) && SameButLocks(repo, other) && d in repo
    requires p.includeLocked || repo[d].IsLocked() == other[d].IsLocked()
    ensures Pinned(p, repo[d]) <==> Pinned(p, other[d])
    ensures d in FirstSeeds(p, repo, rule, now) <==> d in FirstSeeds(p, other, rule, now)
    ensures d in ProtectedReferrers(p, repo, now) <==> d in ProtectedReferrers(p, other, now)
  {
    assert DocsOf(repo)[d].digest == d;
    SameRuns(p.protect, repo[d], other[d].lockedTags, 0);
    SameRulesKeep(repo, other, rule, now, d);
    hide RulesKeep, Runs;
  }

  /** Locking more protects more. */
  lemma MoreProtection(p: Pruner, repo: Repo, other: Repo, rule: RepoRule, now: int)
    requires WellKeyed(repo) && WellKeyed(other) && SameButLocks(repo, other)
    requires forall d | d in repo && repo[d].IsLocked() :: other[d].IsLocked()
    ensures FirstSeeds(p, repo, rule, now) <= FirstSeeds(p, other, rule, now)
    ensures ProtectedReferrers(p, repo, now) <= ProtectedReferrers(p, other, now)
    ensures PinnedReferrer(p, repo) ==> PinnedReferrer(p, other)
    ensures Rooted(p, repo, rule, now) <= Rooted(p, other, rule, now)
    ensures Kept(p, repo, rule, now) <= Kept(p, other, rule, now)
  {
    hide RulesKeep, Runs, Reach, KeepEdges, Deps;
    forall d | d in repo
      ensures d in FirstSeeds(p, repo, rule, now) ==> d in FirstSeeds(p, other, rule, now)
      ensures d in ProtectedReferrers(p, repo, now) ==> d in ProtectedReferrers(p, other, now)
      ensures Pinned(p, repo[d]) ==> Pinned(p, other[d])
    {
      assert DocsOf(repo)[d].digest == d;
      SameRuns(p.protect, repo[d], other[d].lockedTags, 0);
      SameRulesKeep(repo, other, rule, now, d);
    }
    SameGraph(repo, other, rule.deleteOrphaned);
    ReachMoreSeeds(Deps(repo), FirstSeeds(p, repo, rule, now), FirstSeeds(p, other, rule, now));
    ReachMoreSeeds(KeepEdges(repo, rule.deleteOrphaned),
                   FirstSeeds(p, repo, rule, now) + ProtectedReferrers(p, repo, now),
                   FirstSeeds(p, other, rule, now) + ProtectedReferrers(p, other, now));
  }

  /** Locks that do not protect do not matter. */
  lemma LocksIgnored(p: Pruner, repo: Repo, other: Repo, rule: RepoRule, now: int)
    requires WellKeyed(repo) && WellKeyed(other) && SameButLocks(repo, other) && p.includeLocked
    ensures Decision(p, repo, rule, now) == Decision(p, other, rule, now)
  {
    hide RulesKeep, Runs, Reach, Pinned, Fails, FirstSeeds, ProtectedReferrers, KeepEdges, Deps;
    forall d | d in repo
      ensures Pinned(p, repo[d]) <==> Pinned(p, other[d])
      ensures d in FirstSeeds(p, repo, rule, now) <==> d in FirstSeeds(p, other, rule, now)
      ensures d in ProtectedReferrers(p, repo, now) <==> d in ProtectedReferrers(p, other, now)
    {
      SameProtection(p, repo, other, rule, now, d);
    }
    SeedsWithin(p, repo, rule, now);
    SeedsWithin(p, other, rule, now);
    assert FirstSeeds(p, repo, rule, now) == FirstSeeds(p, other, rule, now);
    assert ProtectedReferrers(p, repo, now) == ProtectedReferrers(p, other, now);
    SameGraph(repo, other, rule.deleteOrphaned);
    SameFails(repo, other, rule, Rooted(p, repo, rule, now));
    SameFails(repo, other, rule, Kept(p, repo, rule, now));
  }

  lemma SeedsWithin(p: Pruner, repo: Repo, rule: RepoRule, now: int)
    requires WellKeyed(repo)
    ensures FirstSeeds(p, repo, rule, now) <= repo.Keys && ProtectedReferrers(p, repo, now) <= repo.Keys
  {
  }

  // ----- lazy tag locks

  /** The manifests whose tag locks are loaded after the first decision. */
  ghost function LockCandidates(p: Pruner, repo: Repo, rule: RepoRule, kept: set<Digest>): set<Digest>
  {
    if repo.Keys <= kept then {}
    else if rule.mustDeleteEverything && !p.includeLocked then repo.Keys
    else repo.Keys - kept
  }

  /** Decide without tag locks, load those of the candidates, and decide again. */
  ghost function LazyDecision(p: Pruner, repo: Repo, rule: RepoRule, now: int, locked: set<string>): Option<set<Digest>>
    requires WellKeyed(repo)
  {
    var first := Decision(p, repo, rule, now);
    if first.None? then None else
    KeyedAnyway(repo, LockCandidates(p, repo, rule, first.value), locked);
    Decision(p, WithTagLocks(repo, LockCandidates(p, repo, rule, first.value), locked), rule, now)
  }

  ghost function EagerDecision(p: Pruner, repo: Repo, rule: RepoRule, now: int,
                               locked: set<string>): Option<set<Digest>>
    requires WellKeyed(repo)
  {
    KeyedAnyway(repo, repo.Keys, locked);
    Decision(p, WithTagLocks(repo, repo.Keys, locked), rule, now)
  }

  lemma KeyedAnyway(repo: Repo, candidates: set<Digest>, locked: set<string>)
    requires WellKeyed(repo)
    ensures WellKeyed(WithTagLocks(repo, candidates, locked)) &&
            SameButLocks(repo, WithTagLocks(repo, candidates, locked))
  {
    assert DocsOf(WithTagLocks(repo, candidates, locked)) == DocsOf(repo);
  }

  lemma LockRelations(repo: Repo, candidates: set<Digest>, locked: set<string>)
    requires forall d | d in repo :: repo[d].lockedTags == []
    ensures var lazy, eager := WithTagLocks(repo, candidates, locked), WithTagLocks(repo, repo.Keys, locked);
            && SameButLocks(repo, lazy) && SameButLocks(repo, eager) && SameButLocks(lazy, eager)
            && (forall d | d in repo && repo[d].IsLocked() :: lazy[d].IsLocked())
            && (forall d | d in repo && lazy[d].IsLocked() :: eager[d].IsLocked())
            && (forall d | d in repo && d in candidates :: lazy[d] == eager[d])
  {
  }

  /** The two ways in which an all-or-nothing rule that does not tolerate missing manifests can
      tell the two orders apart. One: without tag locks everything is kept already, so they are
      never loaded, while knowing them would fail on a missing dependency of a tag-locked image.
      Two: the first decision fails on a missing dependency of a referrer kept for its age, while
      knowing the tag locks would keep everything before looking at it. */
  ghost predicate LazyGap(p: Pruner, repo: Repo, eager: Repo, rule: RepoRule, now: int)
    requires WellKeyed(repo) && WellKeyed(eager)
  {
    rule.mustDeleteEverything && !p.includeLocked && (
      || (Forced(p, repo, rule, now) && !Fails(repo, rule, Rooted(p, repo, rule, now)) &&
          Fails(repo, rule, Rooted(p, eager, rule, now)))
      || (!Forced(p, repo, rule, now) && Fails(repo, rule, Kept(p, repo, rule, now)) &&
          Forced(p, eager, rule, now) && !Fails(repo, rule, Rooted(p, eager, rule, now))))
  }

  lemma KeptDecides(p: Pruner, repo: Repo, rule: RepoRule, now: int)
    requires WellKeyed(repo) && !rule.mustDeleteEverything
    ensures Decision(p, repo, rule, now) ==
            if Fails(repo, rule, Kept(p, repo, rule, now)) then None else Some(Kept(p, repo, rule, now))
  {
    KeptFromRooted(p, repo, rule, now);
    hide Rooted, Kept;
    if Fails(repo, rule, Rooted(p, repo, rule, now)) {
      FailsMonotone(repo, rule, Rooted(p, repo, rule, now), Kept(p, repo, rule, now));
    }
  }

  /** Everything the locks of unloaded manifests would add is kept already. */
  lemma LazyKept(p: Pruner, repo: Repo, lazy: Repo, eager: Repo, rule: RepoRule, now: int)
    requires WellKeyed(repo) && WellKeyed(lazy) && WellKeyed(eager)
    requires SameButLocks(repo, lazy) && SameButLocks(repo, eager) && SameButLocks(lazy, eager)
    requires forall d | d in repo && repo[d].IsLocked() :: lazy[d].IsLocked()
    requires forall d | d in repo && lazy[d].IsLocked() :: eager[d].IsLocked()
    requires forall d | d in repo && d !in Kept(p, repo, rule, now) :: lazy[d] == eager[d]
    ensures Kept(p, lazy, rule, now) == Kept(p, eager, rule, now)
  {
    hide RulesKeep, Runs, Reach, Pinned, Fails, FirstSeeds, ProtectedReferrers, KeepEdges, Deps;
    MoreProtection(p, repo, lazy, rule, now);
    MoreProtection(p, lazy, eager, rule, now);
    SameGraph(lazy, eager, rule.deleteOrphaned);
    var edges := KeepEdges(lazy, rule.deleteOrphaned);
    var some := FirstSeeds(p, lazy, rule, now) + ProtectedReferrers(p, lazy, now);
    var all := FirstSeeds(p, eager, rule, now) + ProtectedReferrers(p, eager, now);
    ReachLeast(edges, some);
    SeedsWithin(p, eager, rule, now);
    forall d | d in all ensures d in Reach(edges, some) {
      if d !in Kept(p, repo, rule, now) {
        SameProtection(p, lazy, eager, rule, now, d);
      }
    }
    ReachAbsorb(edges, some, all);
  }

  /** Loading tag locks lazily decides the same as knowing them all, except in the two gaps. */
  lemma LazyLocksExact(p: Pruner, repo: Repo, rule: RepoRule, now: int, locked: set<string>)
    requires WellKeyed(repo) && forall d | d in repo :: repo[d].lockedTags == []
    ensures var eager := WithTagLocks(repo, repo.Keys, locked);
            && WellKeyed(eager)
            && (LazyDecision(p, repo, rule, now, locked) == EagerDecision(p, repo, rule, now, locked) <==>
                  !LazyGap(p, repo, eager, rule, now))
  {
    KeyedAnyway(repo, repo.Keys, locked);
    if p.includeLocked {
      LazyIncluded(p, repo, rule, now, locked);
    } else if rule.mustDeleteEverything {
      LazyAllOrNothing(p, repo, rule, now, locked);
    } else {
      LazyOrdinary(p, repo, rule, now, locked);
    }
  }

  lemma LazyIncluded(p: Pruner, repo: Repo, rule: RepoRule, now: int, locked: set<string>)
    requires WellKeyed(repo) && p.includeLocked
    ensures LazyDecision(p, repo, rule, now, locked) == EagerDecision(p, repo, rule, now, locked)
  {
    hide Decision;
    KeyedAnyway(repo, repo.Keys, locked);
    LocksIgnored(p, repo, WithTagLocks(repo, repo.Keys, locked), rule, now);
    var first := Decision(p, repo, rule, now);
    if first.Some? {
      var candidates := LockCandidates(p, repo, rule, first.value);
      KeyedAnyway(repo, candidates, locked);
      LocksIgnored(p, repo, WithTagLocks(repo, candidates, locked), rule, now);
    }
  }

  lemma LazyOrdinary(p: Pruner, repo: Repo, rule: RepoRule, now: int, locked: set<string>)
    requires WellKeyed(repo) && (forall d | d in repo :: repo[d].lockedTags == []) && !rule.mustDeleteEverything
    ensures LazyDecision(p, repo, rule, now, locked) == EagerDecision(p, repo, rule, now, locked)
  {
    hide Decision, Kept, Fails, WithTagLocks, SameButLocks, WellKeyed;
    var eager := WithTagLocks(repo, repo.Keys, locked);
    KeyedAnyway(repo, repo.Keys, locked);
    LockRelations(repo, repo.Keys, locked);
    MoreProtection(p, repo, eager, rule, now);
    KeptDecides(p, repo, rule, now);
    KeptDecides(p, eager, rule, now);
    SameFails(repo, eager, rule, Kept(p, eager, rule, now));
    if Decision(p, repo, rule, now).None? {
      FailsMonotone(repo, rule, Kept(p, repo, rule, now), Kept(p, eager, rule, now));
    } else {
      var candidates := LockCandidates(p, repo, rule, Kept(p, repo, rule, now));
      var lazy := WithTagLocks(repo, candidates, locked);
      KeyedAnyway(repo, candidates, locked);
      LockRelations(repo, candidates, locked);
      KeptDecides(p, lazy, rule, now);
      LazyKept(p, repo, lazy, eager, rule, now);
      SameFails(lazy, eager, rule, Kept(p, eager, rule, now));
    }
  }

  /** Under an all-or-nothing rule all tag locks are loaded, unless everything is kept already. */
  lemma LazyLoadsAll(p: Pruner, repo: Repo, rule: RepoRule, now: int, locked: set<string>)
    requires WellKeyed(repo) && rule.mustDeleteEverything && !p.includeLocked
    ensures var first := Decision(p, repo, rule, now);
            LazyDecision(p, repo, rule, now, locked) ==
            if first.None? || first.value == repo.Keys then first else EagerDecision(p, repo, rule, now, locked)
  {
    hide Decision, Closed, AllProtected, ProtectedReferrers;
    if Decision(p, repo, rule, now).Some? {
      DecisionSound(p, repo, rule, now);
      assert WithTagLocks(repo, {}, locked) == repo;
    }
  }

  lemma LazyAllOrNothing(p: Pruner, repo: Repo, rule: RepoRule, now: int, locked: set<string>)
    requires WellKeyed(repo) && (forall d | d in repo :: repo[d].lockedTags == [])
    requires rule.mustDeleteEverything && !p.includeLocked
    ensures var eager := WithTagLocks(repo, repo.Keys, locked);
            && WellKeyed(eager)
            && (LazyDecision(p, repo, rule, now, locked) == EagerDecision(p, repo, rule, now, locked) <==>
                  !LazyGap(p, repo, eager, rule, now))
  {
    hide Kept, Fails, Rooted, LazyDecision, WellKeyed, WithTagLocks, SameButLocks, FirstSeeds, PinnedReferrer;
    var eager := WithTagLocks(repo, repo.Keys, locked);
    KeyedAnyway(repo, repo.Keys, locked);
    LockRelations(repo, repo.Keys, locked);
    MoreProtection(p, repo, eager, rule, now);
    LazyLoadsAll(p, repo, rule, now, locked);
    if Fails(repo, rule, Rooted(p, repo, rule, now)) {
      FailsMonotone(repo, rule, Rooted(p, repo, rule, now), Rooted(p, eager, rule, now));
    }
    if Fails(repo, rule, Kept(p, repo, rule, now)) {
      FailsMonotone(repo, rule, Kept(p, repo, rule, now), Kept(p, eager, rule, now));
    }
    SameFails(repo, eager, rule, Rooted(p, eager, rule, now));
    SameFails(repo, eager, rule, Kept(p, eager, rule, now));
    KeptWithin(p, eager, rule, now);
    KeptFromRooted(p, eager, rule, now);
    SameKeys(repo, eager);
    if Fails(repo, rule, Rooted(p, eager, rule, now)) {
      FailsMonotone(repo, rule, Rooted(p, eager, rule, now), repo.Keys);
    }
    assert Kept(p, repo, rule, now) == repo.Keys ==> Kept(p, eager, rule, now) == repo.Keys;
    assert Forced(p, repo, rule, now) ==> Forced(p, eager, rule, now);
  }

  lemma SameKeys(repo: Repo, other: Repo)
    requires SameButLocks(repo, other)
    ensures repo.Keys == other.Keys
  {
  }

  lemma KeptWithin(p: Pruner, repo: Repo, rule: RepoRule, now: int)
    requires WellKeyed(repo)
    ensures Kept(p, repo, rule, now) <= repo.Keys
  {
    ReachWithin(KeepEdges(repo, rule.deleteOrphaned),
                FirstSeeds(p, repo, rule, now) + ProtectedReferrers(p, repo, now), repo.Keys);
  }

  /** Whenever the lazy run decides, it keeps what the first decision kept and everything that
      any lock protects, and it deletes candidates of the lock load only. */
  lemma LazyLocksSafe(p: Pruner, repo: Repo, rule: RepoRule, now: int, locked: set<string>)
    requires WellKeyed(repo) && forall d | d in repo :: repo[d].lockedTags == []
    requires LazyDecision(p, repo, rule, now, locked).Some?
    ensures var first, second := Decision(p, repo, rule, now), LazyDecision(p, repo, rule, now, locked);
            && first.Some? && first.value <= second.value
            && AllProtected(p, WithTagLocks(repo, repo.Keys, locked), now) <= second.value
            && repo.Keys - second.value <= LockCandidates(p, repo, rule, first.value)
  {
    var k1 := Decision(p, repo, rule, now).value;
    var candidates := LockCandidates(p, repo, rule, k1);
    var lazy, eager := WithTagLocks(repo, candidates, locked), WithTagLocks(repo, repo.Keys, locked);
    KeyedAnyway(repo, candidates, locked);
    KeyedAnyway(repo, repo.Keys, locked);
    MoreProtection(p, repo, lazy, rule, now);
    DecisionSound(p, repo, rule, now);
    DecisionSound(p, lazy, rule, now);
    FirstWithinSecond(p, repo, lazy, rule, now);
    hide Decision, Reach, Kept, KeepEdges, Closed, ProtectedReferrers;
    forall d | d in AllProtected(p, eager, now) ensures d in Decision(p, lazy, rule, now).value {
      if d !in k1 {
        assert d in candidates;
        assert lazy[d] == eager[d];
        assert d in AllProtected(p, lazy, now);
      }
    }
  }

  lemma FirstWithinSecond(p: Pruner, repo: Repo, lazy: Repo, rule: RepoRule, now: int)
    requires WellKeyed(repo) && WellKeyed(lazy) && SameButLocks(repo, lazy)
    requires Decision(p, repo, rule, now).Some? && Decision(p, lazy, rule, now).Some?
    requires Forced(p, repo, rule, now) ==> Forced(p, lazy, rule, now)
    requires Kept(p, repo, rule, now) <= Kept(p, lazy, rule, now)
    ensures Decision(p, repo, rule, now).value <= Decision(p, lazy, rule, now).value
  {
    KeptWithin(p, repo, rule, now);
    SameKeys(repo, lazy);
    hide Rooted, Kept, Fails, Forced, SameButLocks;
  }
}
