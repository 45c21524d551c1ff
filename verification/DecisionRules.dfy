/** What a decision keeps, by the fields of the manifests and the options of the prune (decide in
    internal/pruner/pruner.go). */
module DecisionRules {
  import opened Manifests
  import opened Closures
  import opened Rules
  import opened Evaluation
  import opened Running
  import opened Retention
  import opened Decisions

  /** Kept for its own sake: it is out of scope, or must stay, or refers to nothing and the rules keep
      it, being no orphan that the rule deletes. */
  ghost predicate Wanted(p: Pruner, repo: Repo, rule: RepoRule, now: int, d: Digest)
    requires WellKeyed(repo) && d in repo
  {
    assert DocsOf(repo)[d].digest == d;
    || (p.selection.Some? && d !in p.selection.value)
    || MustStay(p, repo[d], now)
    || ((forall x :: !Refers(repo[d].doc, x)) && RulesKeep(repo, rule, now, repo[d]) &&
        !(rule.deleteOrphaned && repo[d].orphaned))
  }

  /** Kept because d is: d lists it, or it refers to d, being no orphan that the rule deletes. */
  ghost predicate Pulls(repo: Repo, rule: RepoRule, d: Digest, c: Digest)
    requires d in repo && c in repo
  {
    HasChild(repo[d].doc, c) || (Refers(repo[c].doc, d) && !(rule.deleteOrphaned && repo[c].orphaned))
  }

  /** The set holds everything wanted and everything that what it holds pulls. */
  ghost predicate Complete(p: Pruner, repo: Repo, rule: RepoRule, now: int, s: set<Digest>)
    requires WellKeyed(repo)
  {
    && (forall d | d in repo && Wanted(p, repo, rule, now, d) :: d in s)
    && (forall d, c | d in s && d in repo && c in repo && Pulls(repo, rule, d, c) :: c in s)
  }

  /** It holds a manifest that lists a missing one. */
  ghost predicate Lacks(repo: Repo, s: set<Digest>)
  {
    exists d, c :: d in s && d in repo && HasChild(repo[d].doc, c) && c !in repo
  }

  /** Something calls for keeping a repository that is to be deleted as a whole or not at all: a
      manifest out of scope; a wanted image; or a referrer that runs or is locked. */
  ghost predicate Calls(p: Pruner, repo: Repo, rule: RepoRule, now: int, d: Digest)
    requires WellKeyed(repo) && d in repo
  {
    || (p.selection.Some? && d !in p.selection.value)
    || ((forall x :: !Refers(repo[d].doc, x)) && Wanted(p, repo, rule, now, d))
    || ((exists x :: Refers(repo[d].doc, x)) &&
        (Runs(p.protect, repo[d], 0) || (!p.includeLocked && (repo[d].doc.locked || repo[d].lockedTags != []))))
  }

  lemma WantedExact(p: Pruner, repo: Repo, rule: RepoRule, now: int, d: Digest)
    requires WellKeyed(repo) && d in repo
    ensures Wanted(p, repo, rule, now, d) <==>
            d in FirstSeeds(p, repo, rule, now) + ProtectedReferrers(p, repo, now)
    ensures Calls(p, repo, rule, now, d) <==>
            d in FirstSeeds(p, repo, rule, now) || (repo[d].doc.IsReferrer() && Pinned(p, repo[d]))
  {
    assert DocsOf(repo)[d].digest == d;
    RefersExact(repo[d].doc);
    ProtectedExact(p, repo[d], now);
    hide RulesKeep, Refers, Runs, MustStay, Protected, Pinned;
  }

  lemma PullsExact(repo: Repo, rule: RepoRule, d: Digest, c: Digest)
    requires d in repo && c in repo
    ensures Pulls(repo, rule, d, c) <==> c in KeepEdges(repo, rule.deleteOrphaned)[d]
  {
    RefersExact(repo[d].doc);
    ReferrersExact(repo, d, c);
    hide Refers, HasChild;
  }

  lemma EdgesWithin(repo: Repo, rule: RepoRule, d: Digest)
    requires d in repo
    ensures KeepEdges(repo, rule.deleteOrphaned)[d] <= repo.Keys
  {
  }

  lemma SeedsExact(p: Pruner, repo: Repo, rule: RepoRule, now: int, s: set<Digest>)
    requires WellKeyed(repo)
    ensures (forall d | d in repo && Wanted(p, repo, rule, now, d) :: d in s) <==>
            FirstSeeds(p, repo, rule, now) + ProtectedReferrers(p, repo, now) <= s
  {
    forall d | d in repo
      ensures Wanted(p, repo, rule, now, d) <==>
              d in FirstSeeds(p, repo, rule, now) + ProtectedReferrers(p, repo, now)
    {
      WantedExact(p, repo, rule, now, d);
    }
    SeedsWithin(p, repo, rule, now);
    hide Wanted, FirstSeeds, ProtectedReferrers, WellKeyed;
  }

  lemma ClosedExact(repo: Repo, rule: RepoRule, s: set<Digest>)
    ensures (forall d, c | d in s && d in repo && c in repo && Pulls(repo, rule, d, c) :: c in s) <==>
            Closed(KeepEdges(repo, rule.deleteOrphaned), s)
  {
    var edges := KeepEdges(repo, rule.deleteOrphaned);
    assert edges.Keys == repo.Keys;
    forall d | d in repo
      ensures edges[d] <= repo.Keys && forall c | c in repo :: Pulls(repo, rule, d, c) <==> c in edges[d]
    {
      EdgesWithin(repo, rule, d);
      forall c | c in repo ensures Pulls(repo, rule, d, c) <==> c in edges[d] {
        PullsExact(repo, rule, d, c);
      }
    }
    hide Pulls, KeepEdges;
  }

  lemma CompleteExact(p: Pruner, repo: Repo, rule: RepoRule, now: int, s: set<Digest>)
    requires WellKeyed(repo)
    ensures Complete(p, repo, rule, now, s) <==>
            Bounds(KeepEdges(repo, rule.deleteOrphaned),
                   FirstSeeds(p, repo, rule, now) + ProtectedReferrers(p, repo, now), s)
  {
    SeedsExact(p, repo, rule, now, s);
    ClosedExact(repo, rule, s);
    hide Wanted, Pulls, KeepEdges, FirstSeeds, ProtectedReferrers, WellKeyed, Closed;
  }

  lemma FailsExact(repo: Repo, rule: RepoRule, s: set<Digest>)
    ensures Fails(repo, rule, s) <==> !rule.ignoreMissing && Lacks(repo, s)
  {
    forall d | d in repo ensures Broken(repo, d) <==> exists c :: HasChild(repo[d].doc, c) && c !in repo {
      RefersExact(repo[d].doc);
    }
    hide Broken, HasChild;
  }

  lemma ForcedExact(p: Pruner, repo: Repo, rule: RepoRule, now: int)
    requires WellKeyed(repo)
    ensures Forced(p, repo, rule, now) <==>
            rule.mustDeleteEverything && exists d :: d in repo && Calls(p, repo, rule, now, d)
  {
    forall d | d in repo
      ensures Calls(p, repo, rule, now, d) <==>
              d in FirstSeeds(p, repo, rule, now) || (repo[d].doc.IsReferrer() && Pinned(p, repo[d]))
    {
      WantedExact(p, repo, rule, now, d);
    }
    SeedsWithin(p, repo, rule, now);
    hide Calls, FirstSeeds, Pinned, ProtectedReferrers;
    if FirstSeeds(p, repo, rule, now) != {} {
      var d :| d in FirstSeeds(p, repo, rule, now);
      assert Calls(p, repo, rule, now, d);
    }
  }

  /** A decision keeps a complete set; everything, if the rule deletes as a whole or not at all and
      something calls for keeping; and otherwise the least complete set, which lacks nothing unless the
      rule ignores that. When there is no decision, the rule does not ignore it and every complete set
      lacks something. */
  lemma DecisionExact(p: Pruner, repo: Repo, rule: RepoRule, now: int)
    requires WellKeyed(repo)
    ensures match Decision(p, repo, rule, now)
            case None =>
              !rule.ignoreMissing && forall s | Complete(p, repo, rule, now, s) :: Lacks(repo, s)
            case Some(kept) =>
              && kept <= repo.Keys && Complete(p, repo, rule, now, kept)
              && if rule.mustDeleteEverything && exists d :: d in repo && Calls(p, repo, rule, now, d)
                 then kept == repo.Keys
                 else (rule.ignoreMissing || !Lacks(repo, kept)) &&
                      forall s | Complete(p, repo, rule, now, s) :: kept <= s
  {
    hide *;
    var edges := KeepEdges(repo, rule.deleteOrphaned);
    var seeds := FirstSeeds(p, repo, rule, now) + ProtectedReferrers(p, repo, now);
    ForcedExact(p, repo, rule, now);
    DecisionCases(p, repo, rule, now);
    ReachLeast(edges, seeds);
    forall s ensures Complete(p, repo, rule, now, s) <==> Bounds(edges, seeds, s)
             ensures Fails(repo, rule, s) <==> !rule.ignoreMissing && Lacks(repo, s) {
      CompleteExact(p, repo, rule, now, s);
      FailsExact(repo, rule, s);
    }
    BoundsAll(p, repo, rule, now);
    if Decision(p, repo, rule, now).None? {
      forall s | Complete(p, repo, rule, now, s) ensures Lacks(repo, s) {
        assert Bounds(edges, seeds, s);
        FailsMonotone(repo, rule, Reach(edges, seeds), s);
      }
    }
  }

  lemma DecisionCases(p: Pruner, repo: Repo, rule: RepoRule, now: int)
    requires WellKeyed(repo)
    ensures var kept := Reach(KeepEdges(repo, rule.deleteOrphaned),
                              FirstSeeds(p, repo, rule, now) + ProtectedReferrers(p, repo, now));
            && kept <= repo.Keys
            && match Decision(p, repo, rule, now)
               case None => Fails(repo, rule, kept)
               case Some(s) =>
                 if Forced(p, repo, rule, now) then s == repo.Keys else s == kept && !Fails(repo, rule, kept)
  {
    hide Fails, Forced, FirstSeeds, ProtectedReferrers, KeepEdges, Rooted, Reach;
    KeptFromRooted(p, repo, rule, now);
    KeptWithin(p, repo, rule, now);
    if Fails(repo, rule, Rooted(p, repo, rule, now)) {
      FailsMonotone(repo, rule, Rooted(p, repo, rule, now), Kept(p, repo, rule, now));
    }
  }

  lemma BoundsAll(p: Pruner, repo: Repo, rule: RepoRule, now: int)
    requires WellKeyed(repo)
    ensures Bounds(KeepEdges(repo, rule.deleteOrphaned),
                   FirstSeeds(p, repo, rule, now) + ProtectedReferrers(p, repo, now), repo.Keys)
  {
    SeedsWithin(p, repo, rule, now);
    hide FirstSeeds, ProtectedReferrers;
  }
}
