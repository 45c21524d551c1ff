/** Manual deletion of chosen digests (internal/pruner/selection.go). */
module Selection {
  import opened Manifests
  import opened Closures
  import opened Sums
  import opened Rules
  import opened Evaluation
  import opened Retention
  import opened Decisions

  /** What selecting a manifest selects: its children, present or not, and its referrers. */
  ghost function ScopeEdges(repo: Repo): map<Digest, set<Digest>>
  {
    map d | d in repo :: repo[d].doc.Children() + Referrers(repo, d)
  }

  /** By the fields of the documents: what d lists, and what refers to d. */
  lemma ScopeExact(repo: Repo, d: Digest, c: Digest)
    requires d in repo
    ensures c in ScopeEdges(repo)[d] <==> HasChild(repo[d].doc, c) || (c in repo && Refers(repo[c].doc, d))
  {
    RefersExact(repo[d].doc);
    ReferrersExact(repo, d, c);
  }

  datatype Expansion = Expanded(selected: set<Digest>) | Unavailable(digest: Digest) | Interrupted

  /** The walk has selected present manifests only; todo accounts for what they select. */
  ghost predicate Expanding(repo: Repo, requested: set<Digest>, selected: set<Digest>, todo: set<Digest>)
  {
    && selected <= repo.Keys
    && requested <= selected + todo
    && selected + todo <= Reach(ScopeEdges(repo), requested)
    && forall d | d in selected :: ScopeEdges(repo)[d] <= selected + todo
  }

  lemma ExpandStep(repo: Repo, requested: set<Digest>, selected: set<Digest>, d: Digest, rest: set<Digest>)
    requires Expanding(repo, requested, selected, rest + {d})
    ensures d in selected ==> Expanding(repo, requested, selected, rest)
    ensures d in repo && d !in selected ==> Expanding(repo, requested, selected + {d}, rest + ScopeEdges(repo)[d])
  {
    ReachLeast(ScopeEdges(repo), requested);
    hide Reach;
    forall x | x in selected ensures ScopeEdges(repo)[x] <= selected + (rest + {d}) {
    }
  }

  lemma ExpandDone(repo: Repo, requested: set<Digest>, selected: set<Digest>)
    requires Expanding(repo, requested, selected, {})
    ensures selected == Reach(ScopeEdges(repo), requested)
  {
    forall x | x in selected && x in ScopeEdges(repo) ensures ScopeEdges(repo)[x] <= selected {
      assert ScopeEdges(repo)[x] <= selected + {};
    }
    ReachUnique(ScopeEdges(repo), requested, selected);
  }

  /** Expands the requested digests to the least set closed under children and referrers; fails
      exactly when that set holds an absent digest, unless it is interrupted first. */
  method ExpandSelection(repo: Repo, digests: seq<Digest>, interrupted: nat -> bool) returns (r: Expansion)
    ensures match r
            case Expanded(selected) => selected == Reach(ScopeEdges(repo), Elements(digests)) && selected <= repo.Keys
            case Unavailable(d) => d in Reach(ScopeEdges(repo), Elements(digests)) && d !in repo
            case Interrupted => exists n :: interrupted(n)
  {
    hide Reach, Expanding, Indexed, Referrers;
    var referrers := IndexSubjects(repo);
    ghost var requested := Elements(digests);
    var selected: set<Digest> := {};
    var pending := digests;
    ExpandStart(repo, requested);
    var round := 0;
    while |pending| > 0
      invariant selected <= repo.Keys && Expanding(repo, requested, selected, Elements(pending))
      decreases repo.Keys - selected, |pending|
    {
      if interrupted(round) {
        return Interrupted;
      }
      round := round + 1;
      var last := |pending| - 1;
      var d := pending[last];
      ghost var rest := Elements(pending[..last]);
      assert Elements(pending) == rest + {d};
      pending := pending[..last];
      ExpandStep(repo, requested, selected, d, rest);
      if d !in selected {
        if d !in repo {
          ExpandReached(repo, requested, selected, d, rest);
          return Unavailable(d);
        }
        selected := selected + {d};
        pending := pending + repo[d].doc.Entries() + ListedAt(referrers, d);
        assert Elements(pending) == rest + ScopeEdges(repo)[d] by {
          IndexedAt(repo, referrers, d);
        }
      }
    }
    assert Elements(pending) == {};
    ExpandDone(repo, requested, selected);
    return Expanded(selected);
  }

  lemma ExpandStart(repo: Repo, requested: set<Digest>)
    ensures Expanding(repo, requested, {}, requested)
  {
    ReachLeast(ScopeEdges(repo), requested);
  }

  lemma ExpandReached(repo: Repo, requested: set<Digest>, selected: set<Digest>, d: Digest, rest: set<Digest>)
    requires Expanding(repo, requested, selected, rest + {d})
    ensures d in Reach(ScopeEdges(repo), requested)
  {
    assert d in rest + {d};
  }

  lemma IndexedAt(repo: Repo, referrers: map<Digest, seq<Digest>>, d: Digest)
    requires Indexed(repo, referrers)
    ensures Elements(ListedAt(referrers, d)) == Referrers(repo, d)
  {
  }

  /** The index of referrers by subject, whatever order the map is walked in. */
  method IndexSubjects(repo: Repo) returns (referrers: map<Digest, seq<Digest>>)
    ensures Indexed(repo, referrers)
  {
    referrers := map[];
    var todo := repo.Keys;
    ghost var seen := {};
    while todo != {}
      invariant todo <= repo.Keys && seen == repo.Keys - todo
      invariant forall s :: Elements(ListedAt(referrers, s)) == Referrers(repo, s) * seen
      decreases todo
    {
      var d :| d in todo;
      IndexedStep(repo, referrers, seen, d);
      var subject := repo[d].doc.SubjectDigest();
      if subject != "" {
        referrers := referrers[subject := ListedAt(referrers, subject) + [d]];
      }
      todo, seen := todo - {d}, seen + {d};
    }
    assert seen == repo.Keys;
    forall s ensures Elements(ListedAt(referrers, s)) == Referrers(repo, s) {
      ReferrersWithin(repo, s);
    }
  }

  // ----- the manual plan

  const DELETE := CommonRule(None, None, None, 0, 0, 0, false)

  /** The rule a manual cleanup prunes its repository by. */
  function ManualRule(repository: string): RepoRule
  {
    RepoRule(Anchored(repository), true, false, false, [DELETE], [TaggedRule(None, DELETE)])
  }

  /** The manual rule keeps no image. */
  lemma ManualRuleKeepsNothing(repo: Repo, repository: string, now: int, m: Manifest)
    requires m.doc.digest in repo
    ensures RulesKeep(repo, ManualRule(repository), now, m) <==> exists d :: Refers(m.doc, d)
    ensures forall name :: ManualRule(repository).repo.Matches(name) <==> name == repository
  {
    var rule := ManualRule(repository);
    RefersExact(m.doc);
    hide Refers;
    assert Criteria(DELETE, m, now);
    assert !UntaggedVerdict(repo, rule, now, m, 0);
    forall k | 0 <= k < |m.doc.tags| ensures !TagKept(repo, rule, now, m, k) {
    }
  }

  /** A manual plan deletes exactly the selected manifests that nothing unselected or protected
      needs, and it never fails on missing manifests elsewhere. */
  lemma ManualPlanExact(p: Pruner, repo: Repo, repository: string, now: int)
    requires WellKeyed(repo) && p.selection.Some? && p.selection.value <= repo.Keys
    ensures var spared := Reach(KeepEdges(repo, false), (repo.Keys - p.selection.value) + AllProtected(p, repo, now));
            && Decision(p, repo, ManualRule(repository), now) == Some(spared)
            && repo.Keys - spared == p.selection.value - spared
  {
    var rule := ManualRule(repository);
    var seeds := FirstSeeds(p, repo, rule, now) + ProtectedReferrers(p, repo, now);
    forall d | d in repo
      ensures d in seeds <==> d !in p.selection.value || Protected(p, repo[d], now)
    {
      assert DocsOf(repo)[d].digest == d;
      ManualRuleKeepsNothing(repo, repository, now, repo[d]);
      RefersExact(repo[d].doc);
      hide RulesKeep, Protected;
    }
    hide RulesKeep, Protected;
    assert seeds == (repo.Keys - p.selection.value) + AllProtected(p, repo, now);
    ReachLeast(KeepEdges(repo, false), seeds);
  }
}
