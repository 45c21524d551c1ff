/** Which manifests of a repository are kept (internal/pruner/pruner.go). */
module Retention {
  import opened Manifests
  import opened Closures
  import opened Sums
  import opened Rules
  import opened Evaluation
  import opened Running
  import opened Order

  /** The options of a prune; selection bounds a manual cleanup to some digests. */
  datatype Pruner = Pruner(
    keepYounger: int,
    includeLocked: bool,
    protect: seq<RepoRule>,
    selection: Option<set<Digest>>)
  {
    predicate InScope(d: Digest)
    {
      selection.None? || d in selection.value
    }
  }

  // ----- protections

  predicate ProtectedByAge(p: Pruner, m: Manifest, now: int)
  {
    !m.HasTimestamp() || (p.keepYounger > 0 && m.doc.updated + p.keepYounger > now)
  }

  ghost predicate Pinned(p: Pruner, m: Manifest)
  {
    Runs(p.protect, m, 0) || (!p.includeLocked && m.IsLocked())
  }

  ghost predicate Protected(p: Pruner, m: Manifest, now: int)
  {
    ProtectedByAge(p, m, now) || Pinned(p, m)
  }

  /** What may never be deleted: a manifest without an update time, or updated too recently; one that
      runs; and, unless locked ones are included, one that is locked or has a locked tag. */
  ghost predicate MustStay(p: Pruner, m: Manifest, now: int)
  {
    || m.doc.updated == 0 || (p.keepYounger > 0 && m.doc.updated + p.keepYounger > now)
    || Runs(p.protect, m, 0)
    || (!p.includeLocked && (m.doc.locked || m.lockedTags != []))
  }

  lemma ProtectedExact(p: Pruner, m: Manifest, now: int)
    ensures Protected(p, m, now) <==> MustStay(p, m, now)
    ensures Pinned(p, m) <==> Runs(p.protect, m, 0) || (!p.includeLocked && (m.doc.locked || m.lockedTags != []))
  {
  }

  ghost predicate ShouldKeep(p: Pruner, repo: Repo, rule: RepoRule, now: int, m: Manifest)
    requires m.doc.digest in repo
  {
    (RulesKeep(repo, rule, now, m) && !Excluded(m, rule.deleteOrphaned)) || Protected(p, m, now)
  }

  // ----- the decision

  /** Kept before any referrer is considered: everything out of scope, and every manifest that
      is no referrer and that the rules or a protection keep. */
  ghost function FirstSeeds(p: Pruner, repo: Repo, rule: RepoRule, now: int): set<Digest>
    requires WellKeyed(repo)
  {
    set d | d in repo && (!p.InScope(d) || IsKept(p, repo, rule, now, d))
  }

  ghost predicate IsKept(p: Pruner, repo: Repo, rule: RepoRule, now: int, d: Digest)
    requires WellKeyed(repo) && d in repo
  {
    assert DocsOf(repo)[d].digest == d;
    !repo[d].doc.IsReferrer() && ShouldKeep(p, repo, rule, now, repo[d])
  }

  ghost function ProtectedReferrers(p: Pruner, repo: Repo, now: int): set<Digest>
  {
    set d | d in repo && repo[d].doc.IsReferrer() && Protected(p, repo[d], now)
  }

  ghost predicate PinnedReferrer(p: Pruner, repo: Repo)
  {
    exists d | d in repo :: repo[d].doc.IsReferrer() && Pinned(p, repo[d])
  }

  /** The first seeds and all they depend on. */
  ghost function Rooted(p: Pruner, repo: Repo, rule: RepoRule, now: int): set<Digest>
    requires WellKeyed(repo)
  {
    Reach(Deps(repo), FirstSeeds(p, repo, rule, now))
  }

  /** An all-or-nothing rule keeps everything once something is kept or a referrer is pinned. */
  ghost predicate Forced(p: Pruner, repo: Repo, rule: RepoRule, now: int)
    requires WellKeyed(repo)
  {
    rule.mustDeleteEverything && (FirstSeeds(p, repo, rule, now) != {} || PinnedReferrer(p, repo))
  }

  /** The least set holding the seeds and closed under present children and followed referrers. */
  ghost function Kept(p: Pruner, repo: Repo, rule: RepoRule, now: int): set<Digest>
    requires WellKeyed(repo)
  {
    Reach(KeepEdges(repo, rule.deleteOrphaned), FirstSeeds(p, repo, rule, now) + ProtectedReferrers(p, repo, now))
  }

  /** A dependency of the set is missing, and the rule does not tolerate that. */
  ghost predicate Fails(repo: Repo, rule: RepoRule, s: set<Digest>)
  {
    !rule.ignoreMissing && exists d | d in s :: d in repo && Broken(repo, d)
  }

  /** The digests to keep, or None when the decision fails on a missing dependency. */
  ghost function Decision(p: Pruner, repo: Repo, rule: RepoRule, now: int): Option<set<Digest>>
    requires WellKeyed(repo)
  {
    if Fails(repo, rule, Rooted(p, repo, rule, now)) then None
    else if Forced(p, repo, rule, now) then Some(repo.Keys)
    else if Fails(repo, rule, Kept(p, repo, rule, now)) then None
    else Some(Kept(p, repo, rule, now))
  }

  // ----- one walk over dependencies

  /** The dependencies of what is not kept yet. */
  ghost function OpenDeps(repo: Repo, before: set<Digest>): map<Digest, set<Digest>>
  {
    map d | d in repo && d !in before :: Deps(repo)[d]
  }

  /** What is kept once digest is, with all it references, where the walk ends at what was kept. */
  ghost function Grown(repo: Repo, before: set<Digest>, digest: Digest): set<Digest>
  {
    before + Reach(OpenDeps(repo, before), {digest}) * repo.Keys
  }

  /** From a set closed under dependencies, that is the least closed set with digest. */
  lemma GrownClosed(repo: Repo, before: set<Digest>, digest: Digest)
    requires before <= repo.Keys && Closed(Deps(repo), before) && digest in repo
    ensures Grown(repo, before, digest) == Reach(Deps(repo), before + {digest})
    ensures Grown(repo, before, digest) <= repo.Keys && Closed(Deps(repo), Grown(repo, before, digest))
  {
    var fewer, edges := OpenDeps(repo, before), Deps(repo);
    ReachLeast(fewer, {digest});
    ReachLeast(edges, before + {digest});
    ReachMoreEdges(fewer, edges, {digest});
    ReachMoreSeeds(edges, {digest}, before + {digest});
    ReachWithin(fewer, {digest}, repo.Keys);
    hide Reach;
    var grown := Grown(repo, before, digest);
    forall x | x in grown && x in edges ensures edges[x] <= grown {
      if x !in before {
        assert fewer[x] <= Reach(fewer, {digest});
      }
    }
    assert Bounds(edges, before + {digest}, grown);
  }

  /** A walk from digest has grown before into kept; what is still to visit accounts for every
      child of what it added. */
  ghost predicate Walking(repo: Repo, ignore: bool, before: set<Digest>, kept: set<Digest>, digest: Digest,
                          todo: set<Digest>)
  {
    && before <= kept <= repo.Keys
    && (digest in repo || !ignore ==> digest in kept + todo)
    && kept + todo * repo.Keys <= Grown(repo, before, digest)
    && Covered(repo, kept - before, kept + todo)
    && (!ignore ==> forall x | x in kept - before :: repo[x].doc.Children() <= repo.Keys + todo)
    && (forall d | d in todo - repo.Keys :: d == digest || MissingChild(repo, kept - before, d))
  }

  ghost predicate Covered(repo: Repo, added: set<Digest>, all: set<Digest>)
    requires added <= repo.Keys
  {
    forall x | x in added :: Deps(repo)[x] <= all
  }

  lemma CoveredAdd(repo: Repo, added: set<Digest>, all: set<Digest>, d: Digest, more: set<Digest>)
    requires added <= repo.Keys && Covered(repo, added, all) && d in repo && all + repo[d].doc.Children() <= more
    ensures Covered(repo, added + {d}, more)
  {
  }

  ghost predicate MissingChild(repo: Repo, s: set<Digest>, d: Digest)
  {
    exists y | y in s :: y in repo && d in repo[y].doc.Children()
  }

  lemma WalkStart(repo: Repo, ignore: bool, before: set<Digest>, digest: Digest)
    requires before <= repo.Keys
    ensures Walking(repo, ignore, before, before, digest, {digest})
  {
    ReachLeast(OpenDeps(repo, before), {digest});
  }

  lemma WalkSkip(repo: Repo, ignore: bool, before: set<Digest>, kept: set<Digest>, digest: Digest, d: Digest,
                 rest: set<Digest>)
    requires Walking(repo, ignore, before, kept, digest, rest + {d})
    requires d in kept || (d !in repo && ignore)
    ensures Walking(repo, ignore, before, kept, digest, rest)
  {
    hide Grown;
    forall x | x in kept - before ensures Deps(repo)[x] <= kept + rest {
      assert Deps(repo)[x] <= kept + (rest + {d});
    }
  }

  lemma GrownStep(repo: Repo, before: set<Digest>, digest: Digest, d: Digest)
    requires d in repo && d !in before && d in Grown(repo, before, digest)
    ensures Deps(repo)[d] <= Grown(repo, before, digest)
  {
    ReachLeast(OpenDeps(repo, before), {digest});
    hide Reach;
    assert OpenDeps(repo, before)[d] <= Reach(OpenDeps(repo, before), {digest});
  }

  lemma WalkAddReached(repo: Repo, before: set<Digest>, kept: set<Digest>, digest: Digest, d: Digest, rest: set<Digest>)
    requires before <= kept && kept + (rest + {d}) * repo.Keys <= Grown(repo, before, digest) && d in repo && d !in kept
    ensures kept + {d} + (rest + repo[d].doc.Children()) * repo.Keys <= Grown(repo, before, digest)
  {
    assert d in (rest + {d}) * repo.Keys;
    GrownStep(repo, before, digest, d);
    hide Grown, Document.Children;
    assert Deps(repo)[d] == repo[d].doc.Children() * repo.Keys;
  }

  lemma WalkAddMissing(repo: Repo, added: set<Digest>, digest: Digest, d: Digest, rest: set<Digest>)
    requires d in repo && forall x | x in rest + {d} - repo.Keys :: x == digest || MissingChild(repo, added, x)
    ensures forall x | x in rest + repo[d].doc.Children() - repo.Keys ::
              x == digest || MissingChild(repo, added + {d}, x)
  {
    hide Document.Children, MissingChild;
    var children := repo[d].doc.Children();
    forall x | x in rest + children - repo.Keys ensures x == digest || MissingChild(repo, added + {d}, x) {
      if x in rest && x != digest {
        MissingMore(repo, added, added + {d}, x);
      } else if x in children {
        MissingHere(repo, added + {d}, d, x);
      }
    }
  }

  lemma WalkAdd(repo: Repo, ignore: bool, before: set<Digest>, kept: set<Digest>, digest: Digest, d: Digest,
                rest: set<Digest>)
    requires Walking(repo, ignore, before, kept, digest, rest + {d})
    requires d in repo && d !in kept
    ensures Walking(repo, ignore, before, kept + {d}, digest, rest + repo[d].doc.Children())
  {
    hide Grown, Document.Children, MissingChild, Deps, Covered;
    WalkAddReached(repo, before, kept, digest, d, rest);
    WalkAddMissing(repo, kept - before, digest, d, rest);
    assert kept + {d} - before == kept - before + {d};
    CoveredAdd(repo, kept - before, kept + (rest + {d}), d, kept + {d} + (rest + repo[d].doc.Children()));
  }

  lemma MissingMore(repo: Repo, s: set<Digest>, t: set<Digest>, x: Digest)
    requires MissingChild(repo, s, x) && s <= t
    ensures MissingChild(repo, t, x)
  {
  }

  lemma MissingHere(repo: Repo, s: set<Digest>, d: Digest, x: Digest)
    requires d in s && d in repo && x in repo[d].doc.Children()
    ensures MissingChild(repo, s, x)
  {
  }

  /** A finished walk has reached exactly the dependencies of its start, and nothing it added
      lacks a child the rule does not let it ignore. */
  lemma WalkDone(repo: Repo, rule: RepoRule, before: set<Digest>, kept: set<Digest>, digest: Digest)
    requires Walking(repo, rule.ignoreMissing, before, kept, digest, {})
    ensures kept == Grown(repo, before, digest)
    ensures (rule.ignoreMissing || digest in repo) && !Fails(repo, rule, kept - before)
  {
    var edges := OpenDeps(repo, before);
    ReachLeast(edges, {digest});
    hide Reach;
    forall x | x in kept + {digest} && x in edges ensures edges[x] <= kept + {digest} {
      assert x in kept - before;
      assert Deps(repo)[x] <= kept + {};
    }
    assert Bounds(edges, {digest}, kept + {digest});
  }

  /** A walk that meets a missing digest started from it, or has reached a manifest listing it. */
  lemma WalkFails(repo: Repo, rule: RepoRule, before: set<Digest>, kept: set<Digest>, digest: Digest, d: Digest,
                  rest: set<Digest>)
    requires Walking(repo, rule.ignoreMissing, before, kept, digest, rest + {d}) && !rule.ignoreMissing
    requires d !in repo
    ensures digest !in repo || Fails(repo, rule, Grown(repo, before, digest) - before)
  {
    hide Grown;
    if d != digest {
      assert d in rest + {d} - repo.Keys;
      assert MissingChild(repo, kept - before, d);
      var y :| y in kept - before && y in repo && d in repo[y].doc.Children();
      assert y in Grown(repo, before, digest) - before && Broken(repo, y);
    }
  }

  // ----- the last tag

  /** Healthy images first, then orphans; referrers after images. */
  function HealthRank(m: Manifest): nat
  {
    (if m.orphaned then 2 else 0) + (if m.doc.IsReferrer() then 1 else 0)
  }

  ghost function TaggedIn(repo: Repo, s: set<Digest>): set<Digest>
  {
    set d | d in s && d in repo && |repo[d].doc.tags| > 0
  }

  /** A healthy manifest before an orphan; of these, an image before a referrer; of these, the one
      updated last; at one time, the one whose digest comes first. */
  ghost predicate Preferred(a: Manifest, b: Manifest)
  {
    if a.orphaned != b.orphaned then b.orphaned
    else if RefersAtAll(a.doc) != RefersAtAll(b.doc) then RefersAtAll(b.doc)
    else a.doc.updated > b.doc.updated || (a.doc.updated == b.doc.updated && Precedes(a.doc.digest, b.doc.digest))
  }

  ghost predicate RefersAtAll(doc: Document)
  {
    exists d :: Refers(doc, d)
  }

  lemma PreferredRanks(a: Manifest, b: Manifest)
    requires a.doc.repository == b.doc.repository
    ensures Preferred(a, b) <==>
            HealthRank(a) < HealthRank(b) || (HealthRank(a) == HealthRank(b) && Newer(a.doc, b.doc))
  {
    NewerExact(a.doc, b.doc);
    RefersExact(a.doc);
    RefersExact(b.doc);
    hide Newer, Precedes, Refers;
  }

  /** The tagged manifest preferred to all others. */
  ghost predicate BestTagged(repo: Repo, best: Digest)
  {
    && best in repo && |repo[best].doc.tags| > 0
    && forall d | d in repo && d != best && |repo[d].doc.tags| > 0 :: Preferred(repo[best], repo[d])
  }

  /** An orphan is picked only if all tagged manifests are orphans; a referrer, only if all those as
      healthy are referrers; and of those alike, the one updated last. */
  lemma BestMeans(repo: Repo, best: Digest, d: Digest)
    requires BestTagged(repo, best) && d in repo && |repo[d].doc.tags| > 0
    ensures repo[best].orphaned ==> repo[d].orphaned
    ensures (exists x :: Refers(repo[best].doc, x)) && repo[d].orphaned == repo[best].orphaned ==>
              exists x :: Refers(repo[d].doc, x)
    ensures repo[d].orphaned == repo[best].orphaned && RefersAtAll(repo[d].doc) == RefersAtAll(repo[best].doc) ==>
              repo[d].doc.updated <= repo[best].doc.updated
  {
    hide Refers;
    assert d != best ==> Preferred(repo[best], repo[d]);
    assert RefersAtAll(repo[best].doc) && repo[d].orphaned == repo[best].orphaned ==> RefersAtAll(repo[d].doc);
  }

  // ----- following referrers

  ghost predicate Indexed(repo: Repo, referrers: map<Digest, seq<Digest>>)
  {
    forall d :: Elements(ListedAt(referrers, d)) == Referrers(repo, d)
  }

  /** The manifests in done have all their followed referrers kept. */
  ghost predicate Followed(repo: Repo, rule: RepoRule, kept: set<Digest>, done: set<Digest>)
  {
    done <= kept && forall d | d in done :: FollowedReferrers(repo, d, rule.deleteOrphaned) <= kept
  }

  lemma FailsNone(repo: Repo, rule: RepoRule, s: set<Digest>)
    requires s == {}
    ensures !Fails(repo, rule, s)
  {
  }

  lemma FailsMonotone(repo: Repo, rule: RepoRule, s: set<Digest>, t: set<Digest>)
    requires s <= t && Fails(repo, rule, s)
    ensures Fails(repo, rule, t)
  {
  }

  lemma FailsSplit(repo: Repo, rule: RepoRule, a: set<Digest>, b: set<Digest>, c: set<Digest>)
    requires a <= b <= c && !Fails(repo, rule, b - a) && !Fails(repo, rule, c - b)
    ensures !Fails(repo, rule, c - a)
  {
  }

  lemma DepsWithin(repo: Repo, rule: RepoRule, seeds: set<Digest>)
    ensures Reach(Deps(repo), seeds) <= Reach(KeepEdges(repo, rule.deleteOrphaned), seeds)
  {
    ReachMoreEdges(Deps(repo), KeepEdges(repo, rule.deleteOrphaned), seeds);
  }

  lemma KeepClosed(repo: Repo, rule: RepoRule, kept: set<Digest>)
    ensures Closed(Deps(repo), kept) && Followed(repo, rule, kept, kept) ==>
              Closed(KeepEdges(repo, rule.deleteOrphaned), kept)
    ensures Closed(KeepEdges(repo, rule.deleteOrphaned), kept) ==> Closed(Deps(repo), kept)
    ensures Closed(KeepEdges(repo, rule.deleteOrphaned), kept) && kept <= repo.Keys ==> Followed(repo, rule, kept, kept)
  {
  }

  lemma FollowDone(repo: Repo, rule: RepoRule, before: set<Digest>, kept: set<Digest>)
    requires Closed(Deps(repo), kept) && Followed(repo, rule, kept, kept)
    requires before <= kept <= Reach(KeepEdges(repo, rule.deleteOrphaned), before)
    ensures kept == Reach(KeepEdges(repo, rule.deleteOrphaned), before)
  {
    KeepClosed(repo, rule, kept);
    ReachUnique(KeepEdges(repo, rule.deleteOrphaned), before, kept);
  }

  lemma FollowedMore(repo: Repo, rule: RepoRule, kept: set<Digest>, more: set<Digest>, done: set<Digest>)
    requires Followed(repo, rule, kept, done) && kept <= more
    ensures Followed(repo, rule, more, done)
  {
  }

  lemma FollowedNext(repo: Repo, rule: RepoRule, kept: set<Digest>, done: set<Digest>, d: Digest)
    requires Followed(repo, rule, kept, done) && d in kept
    requires FollowedReferrers(repo, d, rule.deleteOrphaned) <= kept
    ensures Followed(repo, rule, kept, done + {d})
  {
  }

  /** A referrer of a manifest that is to be kept is to be kept, with its dependencies. */
  lemma ReferrerReached(repo: Repo, rule: RepoRule, seeds: set<Digest>, kept: set<Digest>, d: Digest, r: Digest)
    requires kept <= Reach(KeepEdges(repo, rule.deleteOrphaned), seeds)
    requires d in kept && d in repo && r in FollowedReferrers(repo, d, rule.deleteOrphaned)
    ensures Reach(Deps(repo), kept + {r}) <= Reach(KeepEdges(repo, rule.deleteOrphaned), seeds)
  {
    var edges := KeepEdges(repo, rule.deleteOrphaned);
    ReachLeast(edges, seeds);
    assert r in edges[d];
    assert r in Reach(edges, seeds);
    ReachMonotone(edges, kept + {r}, seeds);
    DepsWithin(repo, rule, kept + {r});
  }

  lemma IndexedStep(repo: Repo, referrers: map<Digest, seq<Digest>>, seen: set<Digest>, d: Digest)
    requires d in repo && forall s :: Elements(ListedAt(referrers, s)) == Referrers(repo, s) * seen
    ensures var subject := repo[d].doc.SubjectDigest();
            var referrers' :=
              if subject != "" then referrers[subject := ListedAt(referrers, subject) + [d]] else referrers;
            forall s :: Elements(ListedAt(referrers', s)) == Referrers(repo, s) * (seen + {d})
  {
    var subject := repo[d].doc.SubjectDigest();
    var referrers' := if subject != "" then referrers[subject := ListedAt(referrers, subject) + [d]] else referrers;
    forall s ensures Elements(ListedAt(referrers', s)) == Referrers(repo, s) * (seen + {d}) {
      assert Elements(ListedAt(referrers, s)) == Referrers(repo, s) * seen;
      if s == subject && subject != "" {
        assert Elements(ListedAt(referrers, s) + [d]) == Elements(ListedAt(referrers, s)) + {d};
      }
    }
  }

  // ----- the passes

  /** One decision in progress: what has been kept so far. */
  class Decider {
    const pruner: Pruner
    const repo: Repo
    const rule: RepoRule
    const now: int
    var kept: set<Digest>

    constructor (pruner: Pruner, repo: Repo, rule: RepoRule, now: int)
      ensures this.pruner == pruner && this.repo == repo && this.rule == rule && this.now == now && kept == {}
    {
      this.pruner, this.repo, this.rule, this.now, kept := pruner, repo, rule, now, {};
    }

    ghost predicate Valid()
      reads this
    {
      kept <= repo.Keys && Closed(Deps(repo), kept)
    }

    /** Keeps a manifest and everything it transitively references that is not kept yet. */
    method KeepWithDependencies(digest: Digest) returns (ok: bool, added: seq<Digest>)
      requires kept <= repo.Keys
      modifies this`kept
      ensures ok ==> kept == Grown(repo, old(kept), digest)
      ensures ok ==> Distinct(added) && Elements(added) == kept - old(kept)
      ensures ok <==>
                (rule.ignoreMissing || digest in repo) && !Fails(repo, rule, Grown(repo, old(kept), digest) - old(kept))
      ensures old(Valid()) && digest in repo && ok ==> Valid() && kept == Reach(Deps(repo), old(kept) + {digest})
      ensures old(Valid()) && digest in repo ==>
                (ok <==> !Fails(repo, rule, Reach(Deps(repo), old(kept) + {digest}) - old(kept)))
    {
      hide Walking, Reach, Fails, Grown, Closed;
      ghost var before, ignore := kept, rule.ignoreMissing;
      if Valid() && digest in repo {
        GrownClosed(repo, before, digest);
      }
      WalkStart(repo, ignore, before, digest);
      var pending := [digest];
      assert Elements(pending) == {digest};
      added := [];
      while |pending| > 0
        invariant before <= kept <= repo.Keys && Walking(repo, ignore, before, kept, digest, Elements(pending))
        invariant Distinct(added) && Elements(added) == kept - before
        decreases repo.Keys - kept, |pending|
      {
        var last := |pending| - 1;
        var d := pending[last];
        ghost var rest := Elements(pending[..last]);
        assert Elements(pending) == rest + {d};
        pending := pending[..last];
        if d in kept {
          WalkSkip(repo, ignore, before, kept, digest, d, rest);
        } else if d !in repo {
          if !rule.ignoreMissing {
            WalkFails(repo, rule, before, kept, digest, d, rest);
            return false, [];
          }
          WalkSkip(repo, ignore, before, kept, digest, d, rest);
        } else {
          WalkAdd(repo, ignore, before, kept, digest, d, rest);
          assert d !in Elements(added);
          kept := kept + {d};
          added := added + [d];
          pending := pending + repo[d].doc.Entries();
          assert Elements(pending) == rest + repo[d].doc.Children();
        }
      }
      assert Elements(pending) == {};
      WalkDone(repo, rule, before, kept, digest);
      ok := true;
    }

    /** Keeps the followed referrers of d, given all of its referrers. */
    method FollowOne(d: Digest, list: seq<Digest>, queue: seq<Digest>, ghost seeds: set<Digest>)
      returns (ok: bool, queue': seq<Digest>)
      requires Valid() && d in kept && Elements(list) == Referrers(repo, d)
      requires Distinct(queue) && Elements(queue) == kept
      requires kept <= Reach(KeepEdges(repo, rule.deleteOrphaned), seeds)
      modifies this`kept
      ensures ok ==> Valid() && old(kept) <= kept <= Reach(KeepEdges(repo, rule.deleteOrphaned), seeds)
      ensures ok ==> queue <= queue' && Distinct(queue') && Elements(queue') == kept
      ensures ok ==> FollowedReferrers(repo, d, rule.deleteOrphaned) <= kept
      ensures if ok then !Fails(repo, rule, kept - old(kept))
              else Fails(repo, rule, Reach(KeepEdges(repo, rule.deleteOrphaned), seeds) - old(kept))
    {
      hide Reach, Fails, Closed;
      ghost var before, target := kept, Reach(KeepEdges(repo, rule.deleteOrphaned), seeds);
      queue' := queue;
      FailsNone(repo, rule, kept - before);
      var k := 0;
      while k < |list|
        invariant k <= |list|
        invariant Valid() && before <= kept <= target
        invariant queue <= queue' && Distinct(queue') && Elements(queue') == kept
        invariant forall j | 0 <= j < k ::
                    list[j] in repo && (list[j] in kept || Excluded(repo[list[j]], rule.deleteOrphaned))
        invariant !Fails(repo, rule, kept - before)
      {
        var r := list[k];
        assert r in Elements(list);
        if r !in kept && !Excluded(repo[r], rule.deleteOrphaned) {
          ghost var was := kept;
          ReferrerReached(repo, rule, seeds, kept, d, r);
          var added;
          ok, added := KeepWithDependencies(r);
          if !ok {
            FailsMonotone(repo, rule, Reach(Deps(repo), was + {r}) - was, target - before);
            return false, queue;
          }
          ReachLeast(Deps(repo), was + {r});
          FailsSplit(repo, rule, before, was, kept);
          DistinctAppend(queue', added);
          queue' := queue' + added;
        }
        k := k + 1;
      }
      ok := true;
    }

    /** Works off the queue from the given place on: each manifest in it brings in its referrers, which
        join the queue. */
    method Follow(referrers: map<Digest, seq<Digest>>, queue: seq<Digest>, next: nat)
      returns (ok: bool, queue': seq<Digest>)
      requires Valid() && Indexed(repo, referrers)
      requires Distinct(queue) && Elements(queue) == kept && next <= |queue|
      requires Followed(repo, rule, kept, Elements(queue[..next]))
      modifies this`kept
      ensures ok ==> Valid() && kept == Reach(KeepEdges(repo, rule.deleteOrphaned), old(kept))
      ensures ok ==> Distinct(queue') && Elements(queue') == kept && Followed(repo, rule, kept, kept)
      ensures var target := Reach(KeepEdges(repo, rule.deleteOrphaned), old(kept));
              ok <==> !Fails(repo, rule, target - old(kept))
    {
      hide Reach, Fails, Closed, Followed, KeepEdges, Deps, FollowedReferrers, Referrers;
      ghost var before, target := kept, Reach(KeepEdges(repo, rule.deleteOrphaned), kept);
      ReachLeast(KeepEdges(repo, rule.deleteOrphaned), kept);
      queue' := queue;
      var i := next;
      FailsNone(repo, rule, kept - before);
      while i < |queue'|
        invariant i <= |queue'|
        invariant Valid() && before <= kept <= target
        invariant Distinct(queue') && Elements(queue') == kept
        invariant Followed(repo, rule, kept, Elements(queue'[..i]))
        invariant !Fails(repo, rule, kept - before)
        decreases |repo| - i
      {
        DistinctFits(queue', repo.Keys);
        ghost var was, done := kept, Elements(queue'[..i]);
        var d := queue'[i];
        assert d in Elements(queue');
        ok, queue' := FollowOne(d, ListedAt(referrers, d), queue', before);
        if !ok {
          FailsMonotone(repo, rule, target - was, target - before);
          return false, queue;
        }
        FailsSplit(repo, rule, before, was, kept);
        FollowedMore(repo, rule, was, kept, done);
        FollowedNext(repo, rule, kept, done, d);
        assert Elements(queue'[..i + 1]) == done + {d};
        i := i + 1;
      }
      assert queue'[..i] == queue';
      FollowDone(repo, rule, before, kept);
      ok := true;
    }

    method IndexReferrers(all: seq<Manifest>) returns (referrers: map<Digest, seq<Digest>>, queue: seq<Digest>)
      requires Valid() && WellKeyed(repo) && Lists(all, repo)
      ensures Indexed(repo, referrers) && Distinct(queue) && Elements(queue) == kept
    {
      hide Referrers;
      referrers, queue := map[], [];
      var i := 0;
      while i < |all|
        invariant i <= |all|
        invariant forall s :: Elements(ListedAt(referrers, s)) == Referrers(repo, s) * DigestsOf(all[..i])
        invariant Distinct(queue) && Elements(queue) == kept * DigestsOf(all[..i])
      {
        var m := all[i];
        var subject := m.doc.SubjectDigest();
        IndexedStep(repo, referrers, DigestsOf(all[..i]), m.doc.digest);
        DigestsStep(all, i);
        if subject != "" {
          referrers := referrers[subject := ListedAt(referrers, subject) + [m.doc.digest]];
        }
        if m.doc.digest in kept {
          NewDigest(all, i);
          DistinctAppend(queue, [m.doc.digest]);
          queue := queue + [m.doc.digest];
        }
        i := i + 1;
      }
      assert all[..i] == all;
      ListsAll(all, repo);
      forall s ensures Elements(ListedAt(referrers, s)) == Referrers(repo, s) {
        ReferrersWithin(repo, s);
      }
    }

    method IsPinned(m: Manifest) returns (r: bool)
      ensures r == Pinned(pruner, m)
    {
      r := RunningMatch(m, pruner.protect);
      if !r {
        r := !pruner.includeLocked && m.IsLocked();
      }
    }

    method IsProtected(m: Manifest) returns (r: bool)
      ensures r == Protected(pruner, m, now)
    {
      r := ProtectedByAge(pruner, m, now);
      if !r {
        r := IsPinned(m);
      }
    }

    /** Keeps one more manifest with its dependencies, and follows the referrers that adds. */
    method KeepAndFollow(d: Digest, referrers: map<Digest, seq<Digest>>, queue: seq<Digest>, ghost seeds: set<Digest>)
      returns (ok: bool, queue': seq<Digest>)
      requires Valid() && Indexed(repo, referrers) && d in repo
      requires Distinct(queue) && Elements(queue) == kept && Followed(repo, rule, kept, kept)
      requires kept == Reach(KeepEdges(repo, rule.deleteOrphaned), seeds)
      modifies this`kept
      ensures ok ==> Valid() && kept == Reach(KeepEdges(repo, rule.deleteOrphaned), seeds + {d})
      ensures ok ==> Distinct(queue') && Elements(queue') == kept && Followed(repo, rule, kept, kept)
      ensures ok <==> !Fails(repo, rule, Reach(KeepEdges(repo, rule.deleteOrphaned), seeds + {d}) - old(kept))
    {
      hide Reach, Fails, Closed, Followed, KeepEdges, Deps, FollowedReferrers, Referrers, Indexed;
      ghost var before, target := kept, Reach(KeepEdges(repo, rule.deleteOrphaned), seeds + {d});
      var added;
      ok, added := KeepWithDependencies(d);
      OneMore(repo, rule, seeds, before, Reach(Deps(repo), before + {d}), d);
      if !ok {
        FailsMonotone(repo, rule, Reach(Deps(repo), before + {d}) - before, target - before);
        return false, queue;
      }
      ghost var between := kept;
      DistinctAppend(queue, added);
      FollowedMore(repo, rule, before, kept, before);
      assert (queue + added)[..|queue|] == queue;
      ok, queue' := Follow(referrers, queue + added, |queue|);
      if !ok {
        FailsMonotone(repo, rule, target - between, target - before);
      } else {
        FailsSplit(repo, rule, before, between, target);
      }
    }

    /** Keeps one manifest if it is a protected referrer. */
    method KeepIfProtected(m: Manifest, referrers: map<Digest, seq<Digest>>, queue: seq<Digest>,
                           ghost seeds: set<Digest>)
      returns (ok: bool, queue': seq<Digest>)
      requires Valid() && Indexed(repo, referrers) && m.doc.digest in repo && repo[m.doc.digest] == m
      requires Distinct(queue) && Elements(queue) == kept && Followed(repo, rule, kept, kept)
      requires kept == Reach(KeepEdges(repo, rule.deleteOrphaned), seeds)
      modifies this`kept
      ensures ok ==> Valid() && old(kept) <= kept
      ensures ok ==> kept == Reach(KeepEdges(repo, rule.deleteOrphaned), Guard(pruner, repo, now, seeds, m.doc.digest))
      ensures ok ==> Distinct(queue') && Elements(queue') == kept && Followed(repo, rule, kept, kept)
      ensures ok <==> !Fails(repo, rule,
        Reach(KeepEdges(repo, rule.deleteOrphaned), Guard(pruner, repo, now, seeds, m.doc.digest)) - old(kept))
    {
      hide Reach, Fails, Closed, Followed, KeepEdges, Deps, FollowedReferrers, Referrers, Protected, Indexed;
      ghost var edges := KeepEdges(repo, rule.deleteOrphaned);
      var d := m.doc.digest;
      ReachMoreSeeds(edges, seeds, seeds + {d});
      if d in kept {
        ReachAgain(edges, seeds, d);
        assert Guard(pruner, repo, now, seeds, d) == seeds || Guard(pruner, repo, now, seeds, d) == seeds + {d};
        FailsNone(repo, rule, Reach(edges, Guard(pruner, repo, now, seeds, d)) - kept);
        return true, queue;
      }
      if m.doc.SubjectDigest() != "" {
        var protects := IsProtected(m);
        if protects {
          ok, queue' := KeepAndFollow(d, referrers, queue, seeds);
          return;
        }
      }
      assert Guard(pruner, repo, now, seeds, d) == seeds;
      FailsNone(repo, rule, Reach(edges, Guard(pruner, repo, now, seeds, d)) - kept);
      return true, queue;
    }

    /** Keeps what follows kept manifests, and the protected referrers with what follows them. */
    method KeepReferrers(all: seq<Manifest>) returns (ok: bool)
      requires Valid() && WellKeyed(repo) && Lists(all, repo)
      modifies this`kept
      ensures ok ==> Valid()
      ensures ok ==> kept == Reach(KeepEdges(repo, rule.deleteOrphaned),
                                   old(kept) + ProtectedReferrers(pruner, repo, now))
      ensures ok <==> !Fails(repo, rule,
        Reach(KeepEdges(repo, rule.deleteOrphaned), old(kept) + ProtectedReferrers(pruner, repo, now)) - old(kept))
    {
      hide Reach, Fails, Closed, Followed, KeepEdges, Deps, FollowedReferrers, Referrers, Protected, Indexed,
          ProtectedReferrers, Guard;
      ghost var before, edges := kept, KeepEdges(repo, rule.deleteOrphaned);
      ghost var guarded := ProtectedReferrers(pruner, repo, now);
      ghost var target := Reach(edges, before + guarded);
      var referrers, queue := IndexReferrers(all);
      FollowedNone(repo, rule, kept, queue[..0]);
      ok, queue := Follow(referrers, queue, 0);
      ReachLeast(edges, before);
      ReachMoreSeeds(edges, before, before + guarded);
      if !ok {
        FailsMonotone(repo, rule, Reach(edges, before) - before, target - before);
        return false;
      }
      ghost var seen, seeds := {}, before;
      var i := 0;
      while i < |all|
        invariant i <= |all| && seen == DigestsOf(all[..i]) && seeds == before + guarded * seen
        invariant Valid() && before <= kept && kept == Reach(edges, seeds)
        invariant Distinct(queue) && Elements(queue) == kept && Followed(repo, rule, kept, kept)
        invariant !Fails(repo, rule, kept - before)
      {
        var d := all[i].doc.digest;
        DigestsStep(all, i);
        GuardStep(pruner, repo, now, before, seen, d);
        ghost var was, next := kept, Guard(pruner, repo, now, seeds, d);
        ReachMoreSeeds(edges, next, before + guarded);
        ok, queue := KeepIfProtected(all[i], referrers, queue, seeds);
        if !ok {
          FailsMonotone(repo, rule, Reach(edges, next) - was, target - before);
          return;
        }
        FailsSplit(repo, rule, before, was, kept);
        seen, seeds := seen + {d}, next;
        i := i + 1;
      }
      assert all[..i] == all;
      ListsAll(all, repo);
      GuardedWithin(pruner, repo, now);
      assert seeds == before + guarded;
    }

    method AnyPinnedReferrer(all: seq<Manifest>) returns (r: bool)
      requires WellKeyed(repo) && Lists(all, repo)
      ensures r == PinnedReferrer(pruner, repo)
    {
      var i := 0;
      while i < |all|
        invariant i <= |all|
        invariant forall k | 0 <= k < i :: !(all[k].doc.IsReferrer() && Pinned(pruner, all[k]))
      {
        if all[i].doc.SubjectDigest() != "" {
          var pinned := IsPinned(all[i]);
          if pinned {
            return true;
          }
        }
        i := i + 1;
      }
      NonePinned(pruner, repo, all);
      return false;
    }

    /** The first pass: what is out of scope, and every manifest to keep that is no referrer. */
    method KeepRooted(all: seq<Manifest>) returns (ok: bool)
      requires kept == {} && WellKeyed(repo) && Lists(all, repo)
      modifies this`kept
      ensures ok ==> Valid() && kept == Rooted(pruner, repo, rule, now)
      ensures ok <==> !Fails(repo, rule, Rooted(pruner, repo, rule, now))
    {
      hide Reach, Fails, Closed, Deps, FirstSeeds, ShouldKeep, IsKept;
      ghost var edges, first := Deps(repo), FirstSeeds(pruner, repo, rule, now);
      ghost var target := Rooted(pruner, repo, rule, now);
      var evaluator := new Evaluator(rule, all, now, repo);
      ghost var seen, seeds := {}, {};
      ReachNothing(edges);
      ReachLeast(edges, {});
      FailsNone(repo, rule, kept);
      assert seeds == first * seen;
      var i := 0;
      while i < |all|
        invariant i <= |all| && seen == DigestsOf(all[..i]) && seeds == first * seen
        invariant Valid() && kept == Reach(edges, seeds) && !Fails(repo, rule, kept)
        invariant evaluator.rule == rule && evaluator.now == now && evaluator.Valid(repo)
      {
        var m := all[i];
        var d := m.doc.digest;
        DigestsStep(all, i);
        FirstSeedsAt(pruner, repo, rule, now, all, i);
        var keeps := !pruner.InScope(d);
        if !keeps && m.doc.SubjectDigest() == "" {
          var verdict, sparedBy := evaluator.Keep(m, repo);
          keeps := verdict && !Excluded(m, rule.deleteOrphaned);
          if !keeps {
            keeps := IsProtected(m);
          }
        }
        ghost var was, next := kept, first * (seen + {d});
        assert next == if keeps then seeds + {d} else seeds;
        if keeps {
          ReachMoreSeeds(edges, seeds + {d}, first);
          ReachStep(edges, seeds, d);
          var added;
          ok, added := KeepWithDependencies(d);
          if !ok {
            FailsMonotone(repo, rule, Reach(edges, was + {d}) - was, target);
            return;
          }
          assert was - {} == was && kept - {} == kept;
          ReachLeast(edges, was + {d});
          FailsSplit(repo, rule, {}, was, kept);
        }
        seen, seeds := seen + {d}, next;
        i := i + 1;
      }
      assert all[..i] == all;
      ListsAll(all, repo);
      FirstWithin(pruner, repo, rule, now);
      assert seeds == first;
      ok := true;
    }

    /** The digests to keep, whatever the order of the listing. */
    method Decide(all: seq<Manifest>) returns (ok: bool)
      requires kept == {} && WellKeyed(repo) && Lists(all, repo)
      modifies this`kept
      ensures ok <==> Decision(pruner, repo, rule, now).Some?
      ensures ok ==> Decision(pruner, repo, rule, now) == Some(kept)
    {
      hide Reach, Fails, Closed, Deps, KeepEdges, FirstSeeds, ProtectedReferrers, PinnedReferrer;
      ok := KeepRooted(all);
      if !ok {
        return;
      }
      RootedEmpty(pruner, repo, rule, now);
      var pinned := AnyPinnedReferrer(all);
      if rule.mustDeleteEverything && (|kept| > 0 || pinned) {
        kept := repo.Keys;
        return true;
      }
      ghost var rooted := kept;
      KeptFromRooted(pruner, repo, rule, now);
      ok := KeepReferrers(all);
      KeptFails(pruner, repo, rule, now);
    }

    /** The best tagged manifest, unless a tagged manifest is kept anyway. */
    method FindLastTag(all: seq<Manifest>) returns (survives: bool, last: Option<Manifest>)
      requires WellKeyed(repo) && Lists(all, repo) && NewestFirst(all)
      ensures survives <==> TaggedIn(repo, kept) != {}
      ensures !survives ==> (last.None? <==> TaggedIn(repo, repo.Keys) == {})
      ensures !survives && last.Some? ==> BestTagged(repo, last.value.doc.digest)
    {
      hide TaggedIn, BestTagged, Lists, NewestFirst, WellKeyed, HealthRank;
      last := None;
      ghost var best := 0;
      var i := 0;
      while i < |all|
        invariant i <= |all|
        invariant forall k | 0 <= k < i && |all[k].doc.tags| > 0 :: all[k].doc.digest !in kept
        invariant last.None? ==> forall k | 0 <= k < i :: |all[k].doc.tags| == 0
        invariant last.Some? ==> best < i && last.value == all[best] && BestUpTo(all, i, best)
      {
        var m := all[i];
        if last.Some? {
          BestStep(all, i, best);
        }
        if |m.doc.tags| > 0 {
          if m.doc.digest in kept {
            TagSurvives(repo, all, i, kept);
            return true, None;
          }
          if last.None? || HealthRank(m) < HealthRank(last.value) {
            last, best := Some(m), i;
          }
        }
        i := i + 1;
      }
      NoTagKept(repo, all, kept);
      if last.Some? {
        BestOfAll(repo, all, best);
      } else {
        NoTagKept(repo, all, repo.Keys);
      }
      return false, last;
    }

    /** Keeps the best tagged manifest when no tagged manifest would be kept otherwise. */
    method KeepLastTag(all: seq<Manifest>) returns (ok: bool, last: Option<Digest>)
      requires Valid() && WellKeyed(repo) && Lists(all, repo) && NewestFirst(all)
      modifies this`kept
      ensures last.Some? <==> NeedsLastTag(repo, old(kept))
      ensures last.None? ==> ok && kept == old(kept)
      ensures last.Some? ==> BestTagged(repo, last.value)
      ensures last.Some? && ok ==> Valid() && kept == WithLastTag(pruner, repo, rule, now, old(kept), last.value)
      ensures last.Some? ==>
                (ok <==> !Fails(repo, rule, WithLastTag(pruner, repo, rule, now, old(kept), last.value) - old(kept)))
    {
      hide Reach, Fails, Closed, Deps, KeepEdges, ProtectedReferrers, BestTagged;
      var survives, found := FindLastTag(all);
      if survives || found.None? {
        return true, None;
      }
      last := Some(found.value.doc.digest);
      BestPresent(repo, last.value);
      ghost var before, target := kept, WithLastTag(pruner, repo, rule, now, kept, last.value);
      var added;
      ok, added := KeepWithDependencies(last.value);
      LastTagSteps(pruner, repo, rule, now, before, last.value);
      ghost var between := Reach(Deps(repo), before + {last.value});
      if !ok {
        FailsMonotone(repo, rule, between - before, target - before);
        return;
      }
      ok := KeepReferrers(all);
      if ok {
        FailsSplit(repo, rule, before, between, target);
      } else {
        FailsMonotone(repo, rule, target - between, target - before);
      }
    }
  }

  /** Nothing tagged is kept although something is tagged. */
  ghost predicate NeedsLastTag(repo: Repo, kept: set<Digest>)
  {
    TaggedIn(repo, repo.Keys) != {} && TaggedIn(repo, kept) == {}
  }

  ghost function WithLastTag(p: Pruner, repo: Repo, rule: RepoRule, now: int, kept: set<Digest>,
                             last: Digest): set<Digest>
  {
    Reach(KeepEdges(repo, rule.deleteOrphaned), kept + {last} + ProtectedReferrers(p, repo, now))
  }

  ghost predicate BestUpTo(all: seq<Manifest>, n: nat, best: nat)
    requires best < n <= |all|
  {
    && |all[best].doc.tags| > 0
    && forall k | 0 <= k < n && |all[k].doc.tags| > 0 ::
         HealthRank(all[best]) < HealthRank(all[k]) || (HealthRank(all[best]) == HealthRank(all[k]) && best <= k)
  }

  lemma NoTagKept(repo: Repo, all: seq<Manifest>, s: set<Digest>)
    requires WellKeyed(repo) && Lists(all, repo)
    requires forall k | 0 <= k < |all| && |all[k].doc.tags| > 0 :: all[k].doc.digest !in s
    ensures TaggedIn(repo, s) == {}
  {
    forall d | d in repo && |repo[d].doc.tags| > 0 ensures d !in s {
      var k :| 0 <= k < |all| && all[k] == repo[d];
      assert DocsOf(repo)[d].digest == d;
    }
  }

  lemma TagSurvives(repo: Repo, all: seq<Manifest>, i: nat, s: set<Digest>)
    requires Lists(all, repo) && i < |all| && |all[i].doc.tags| > 0 && all[i].doc.digest in s
    ensures TaggedIn(repo, s) != {}
  {
    assert all[i].doc.digest in TaggedIn(repo, s);
  }

  lemma BestStep(all: seq<Manifest>, i: nat, best: nat)
    requires best < i < |all| && BestUpTo(all, i, best)
    ensures |all[i].doc.tags| > 0 && HealthRank(all[i]) < HealthRank(all[best]) ==> BestUpTo(all, i + 1, i)
    ensures |all[i].doc.tags| == 0 || HealthRank(all[i]) >= HealthRank(all[best]) ==> BestUpTo(all, i + 1, best)
  {
  }

  lemma BestOfAll(repo: Repo, all: seq<Manifest>, best: nat)
    requires WellKeyed(repo) && Lists(all, repo) && NewestFirst(all) && best < |all| && BestUpTo(all, |all|, best)
    ensures BestTagged(repo, all[best].doc.digest) && TaggedIn(repo, repo.Keys) != {}
  {
    hide Preferred, HealthRank, Newer;
    var b := all[best].doc.digest;
    assert b in TaggedIn(repo, repo.Keys);
    forall d | d in repo && d != b && |repo[d].doc.tags| > 0 ensures Preferred(repo[b], repo[d]) {
      var k :| 0 <= k < |all| && all[k] == repo[d];
      assert DocsOf(repo)[d].digest == d && DocsOf(repo)[b].repository == DocsOf(repo)[d].repository;
      NewerTotal(all[best].doc, all[k].doc);
      assert best != k;
      PreferredRanks(repo[b], repo[d]);
    }
  }

  lemma BestPresent(repo: Repo, best: Digest)
    requires BestTagged(repo, best)
    ensures best in repo && |repo[best].doc.tags| > 0
  {
  }

  lemma LastTagSteps(p: Pruner, repo: Repo, rule: RepoRule, now: int, kept: set<Digest>, last: Digest)
    ensures var edges, between := KeepEdges(repo, rule.deleteOrphaned), Reach(Deps(repo), kept + {last});
            && kept <= between <= WithLastTag(p, repo, rule, now, kept, last)
            && Reach(edges, between + ProtectedReferrers(p, repo, now)) == WithLastTag(p, repo, rule, now, kept, last)
  {
    var edges, between := KeepEdges(repo, rule.deleteOrphaned), Reach(Deps(repo), kept + {last});
    var guarded := ProtectedReferrers(p, repo, now);
    ReachLeast(Deps(repo), kept + {last});
    DepsWithin(repo, rule, kept + {last});
    ReachMoreSeeds(edges, kept + {last}, kept + {last} + guarded);
    ReachLeast(edges, kept + {last} + guarded);
    ReachAbsorb(edges, kept + {last} + guarded, between + guarded);
  }

  lemma NonePinned(p: Pruner, repo: Repo, all: seq<Manifest>)
    requires Lists(all, repo)
    requires forall k | 0 <= k < |all| :: !(all[k].doc.IsReferrer() && Pinned(p, all[k]))
    ensures !PinnedReferrer(p, repo)
  {
    forall d | d in repo ensures !(repo[d].doc.IsReferrer() && Pinned(p, repo[d])) {
      var k :| 0 <= k < |all| && all[k] == repo[d];
    }
  }

  lemma FirstWithin(p: Pruner, repo: Repo, rule: RepoRule, now: int)
    requires WellKeyed(repo)
    ensures FirstSeeds(p, repo, rule, now) <= repo.Keys
  {
  }

  lemma FirstSeedsAt(p: Pruner, repo: Repo, rule: RepoRule, now: int, all: seq<Manifest>, i: nat)
    requires WellKeyed(repo) && Lists(all, repo) && i < |all|
    ensures var m := all[i];
            && m.doc.digest in repo && repo[m.doc.digest] == m
            && (m.doc.digest in FirstSeeds(p, repo, rule, now) <==>
                  !p.InScope(m.doc.digest) || (m.doc.SubjectDigest() == "" &&
                    ((RulesKeep(repo, rule, now, m) && !Excluded(m, rule.deleteOrphaned)) || Protected(p, m, now))))
  {
  }

  lemma RootedEmpty(p: Pruner, repo: Repo, rule: RepoRule, now: int)
    requires WellKeyed(repo)
    ensures Rooted(p, repo, rule, now) == {} <==> FirstSeeds(p, repo, rule, now) == {}
  {
    ReachLeast(Deps(repo), FirstSeeds(p, repo, rule, now));
    ReachNothing(Deps(repo));
  }

  /** Starting from the rooted manifests instead of the first seeds keeps the same. */
  lemma KeptFromRooted(p: Pruner, repo: Repo, rule: RepoRule, now: int)
    requires WellKeyed(repo)
    ensures Rooted(p, repo, rule, now) <= Kept(p, repo, rule, now)
    ensures Kept(p, repo, rule, now) ==
            Reach(KeepEdges(repo, rule.deleteOrphaned), Rooted(p, repo, rule, now) + ProtectedReferrers(p, repo, now))
  {
    var edges, first := KeepEdges(repo, rule.deleteOrphaned), FirstSeeds(p, repo, rule, now);
    var guarded := ProtectedReferrers(p, repo, now);
    DepsWithin(repo, rule, first);
    ReachLeast(Deps(repo), first);
    ReachMoreSeeds(edges, first, first + guarded);
    ReachLeast(edges, first + guarded);
    ReachAbsorb(edges, first + guarded, Rooted(p, repo, rule, now) + guarded);
  }

  lemma KeptFails(p: Pruner, repo: Repo, rule: RepoRule, now: int)
    requires WellKeyed(repo) && !Fails(repo, rule, Rooted(p, repo, rule, now))
    ensures Fails(repo, rule, Kept(p, repo, rule, now)) <==>
            Fails(repo, rule, Kept(p, repo, rule, now) - Rooted(p, repo, rule, now))
  {
    hide Reach;
    var kept, rooted := Kept(p, repo, rule, now), Rooted(p, repo, rule, now);
    if Fails(repo, rule, kept) {
      var d :| d in kept && d in repo && Broken(repo, d);
      assert d in kept - rooted;
    }
  }

  ghost function Guard(p: Pruner, repo: Repo, now: int, seeds: set<Digest>, d: Digest): set<Digest>
    requires d in repo
  {
    seeds + if repo[d].doc.IsReferrer() && Protected(p, repo[d], now) then {d} else {}
  }

  lemma GuardStep(p: Pruner, repo: Repo, now: int, before: set<Digest>, seen: set<Digest>, d: Digest)
    requires d in repo
    ensures var guarded := ProtectedReferrers(p, repo, now);
            && Guard(p, repo, now, before + guarded * seen, d) == before + guarded * (seen + {d})
            && before + guarded * (seen + {d}) <= before + guarded
  {
  }

  lemma FollowedNone(repo: Repo, rule: RepoRule, kept: set<Digest>, none: seq<Digest>)
    requires none == []
    ensures Followed(repo, rule, kept, Elements(none))
  {
  }

  lemma GuardedWithin(p: Pruner, repo: Repo, now: int)
    ensures ProtectedReferrers(p, repo, now) <= repo.Keys
  {
  }

  /** Dependencies first, then what follows: the same as following from the start. */
  lemma OneMore(repo: Repo, rule: RepoRule, seeds: set<Digest>, kept: set<Digest>, between: set<Digest>, d: Digest)
    requires kept == Reach(KeepEdges(repo, rule.deleteOrphaned), seeds)
    requires between == Reach(Deps(repo), kept + {d})
    ensures kept <= between <= Reach(KeepEdges(repo, rule.deleteOrphaned), seeds + {d})
    ensures Reach(KeepEdges(repo, rule.deleteOrphaned), between) ==
            Reach(KeepEdges(repo, rule.deleteOrphaned), seeds + {d})
  {
    ReachLeast(Deps(repo), kept + {d});
    DepsWithin(repo, rule, kept + {d});
    ReachAfter(KeepEdges(repo, rule.deleteOrphaned), seeds, between, d);
    ReachLeast(KeepEdges(repo, rule.deleteOrphaned), between);
  }

  lemma NewDigest(all: seq<Manifest>, i: nat)
    requires i < |all| && forall j, k | 0 <= j < k < |all| :: all[j].doc.digest != all[k].doc.digest
    ensures all[i].doc.digest !in DigestsOf(all[..i])
  {
  }

  lemma ReferrersWithin(repo: Repo, d: Digest)
    ensures Referrers(repo, d) <= repo.Keys
  {
  }
}
