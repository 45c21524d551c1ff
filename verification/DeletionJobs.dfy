/** From the manifests a plan deletes to the run that deletes them (DeleteManifests in
    internal/registry/delete.go). */
module DeletionJobs {
  import opened Manifests
  import opened Sums
  import opened Locks
  import opened Batches
  import opened DeletionOrder
  import opened Deletion
  import opened DeletionRuns
  import opened Safety

  // ----- the locks to take off

  function TagTargets(repository: string, tags: seq<string>): (r: seq<Target>)
    ensures forall t :: t in r <==> t.OnTag? && t.repository == repository && t.tag in tags
  {
    if tags == [] then [] else
    assert tags == [tags[0]] + tags[1..];
    [OnTag(repository, tags[0])] + TagTargets(repository, tags[1..])
  }

  /** The locks to take off a manifest before deleting it. */
  function LockTargets(m: Manifest, unlock: bool): seq<Target>
  {
    if !unlock then [] else
    (if m.doc.locked then [OnManifest(m.doc.Reference())] else []) + TagTargets(m.doc.repository, m.lockedTags)
  }

  /** A lock on the manifest, which its document reports, or on one of its locked tags. */
  ghost predicate IsLockOf(m: Manifest, t: Target)
  {
    match t
    case OnManifest(r) => m.doc.locked && r == Ref(m.doc.repository, m.doc.digest)
    case OnTag(repository, tag) => repository == m.doc.repository && tag in m.lockedTags
  }

  /** Unlocking takes off exactly the locks of the manifest. */
  lemma LockTargetsExact(m: Manifest, unlock: bool)
    ensures forall t :: t in LockTargets(m, unlock) <==> unlock && IsLockOf(m, t)
  {
  }

  /** A tag names one manifest of its repository. */
  ghost predicate OneOwner(repo: Repo)
  {
    forall d, e, tag | d in repo && e in repo && d != e && tag in repo[d].lockedTags :: tag !in repo[e].lockedTags
  }

  lemma OwnTargets(repo: Repo, unlock: bool, d: Digest, e: Digest)
    requires WellKeyed(repo) && OneOwner(repo) && d in repo && e in repo && d != e
    ensures Elements(LockTargets(repo[d], unlock)) !! Elements(LockTargets(repo[e], unlock))
  {
    RefUnique(repo, d, e);
    forall t | t in LockTargets(repo[d], unlock) ensures t !in LockTargets(repo[e], unlock) {
    }
  }

  ghost function JobTargets(repo: Repo, refs: set<Ref>, unlock: bool): map<Ref, seq<Target>>
    requires forall r | r in refs :: r.digest in repo
  {
    map r | r in refs :: LockTargets(repo[r.digest], unlock)
  }

  lemma VictimsWithin(repo: Repo, kept: set<Digest>)
    requires WellKeyed(repo)
    ensures forall r | r in VictimDocs(repo, kept) ::
              && r.digest in repo && r.digest !in kept && RefOf(repo, r.digest) == r
              && VictimDocs(repo, kept)[r] == repo[r.digest].doc
  {
    forall r | r in VictimDocs(repo, kept)
      ensures r.digest in repo && r.digest !in kept && RefOf(repo, r.digest) == r &&
              VictimDocs(repo, kept)[r] == repo[r.digest].doc
    {
      var d :| d in repo.Keys - kept && d in repo && RefOf(repo, d) == r;
      RefUnique(repo, d, d);
    }
  }

  function DocsIn(repo: Repo, digests: seq<Digest>): seq<Document>
    requires forall i | 0 <= i < |digests| :: digests[i] in repo
  {
    seq(|digests|, i requires 0 <= i < |digests| => repo[digests[i]].doc)
  }

  lemma SelectedRefs(repo: Repo, digests: seq<Digest>)
    requires WellKeyed(repo) && forall i | 0 <= i < |digests| :: digests[i] in repo
    ensures ByRef(DocsIn(repo, digests)).Keys == AllRefs(repo, Elements(digests))
    ensures forall r | r in ByRef(DocsIn(repo, digests)) ::
              r.digest in repo && ByRef(DocsIn(repo, digests))[r] == repo[r.digest].doc
  {
    var docs := DocsIn(repo, digests);
    ByRefKeys(docs);
    RefsAt(docs);
    hide ByRef, RefsOf, WellKeyed;
    forall d | d in digests ensures RefOf(repo, d) in RefsOf(docs) {
      var i :| 0 <= i < |digests| && digests[i] == d;
      assert RefsOf(docs)[i] == RefOf(repo, d);
    }
    forall r | r in RefsOf(docs) ensures r in AllRefs(repo, Elements(digests)) {
      var i :| 0 <= i < |docs| && RefsOf(docs)[i] == r;
      assert digests[i] in Elements(digests) && r == RefOf(repo, digests[i]);
    }
    forall r | r in ByRef(docs) ensures r.digest in repo && ByRef(docs)[r] == repo[r.digest].doc {
      var i :| 0 <= i < |docs| && docs[i] == ByRef(docs)[r];
      RefUnique(repo, digests[i], digests[i]);
    }
  }

  lemma SelectedVictims(repo: Repo, digests: seq<Digest>, kept: set<Digest>)
    requires WellKeyed(repo) && Elements(digests) == repo.Keys - kept
    ensures forall i | 0 <= i < |digests| :: digests[i] in repo
    ensures ByRef(DocsIn(repo, digests)) == VictimDocs(repo, kept)
  {
    forall i | 0 <= i < |digests| ensures digests[i] in repo {
      assert digests[i] in Elements(digests);
    }
    SelectedRefs(repo, digests);
    VictimsWithin(repo, kept);
  }

  lemma LevelledLayers(job: Job)
    requires job.parents.Keys == job.level.Keys && Levelled(job.parents, job.level)
    requires forall n | n in job.level :: job.level[n] < job.rounds
    ensures Layered(job)
  {
  }

  /** Different manifests of a repository have different references. */
  lemma SelectedOnce(repo: Repo, digests: seq<Digest>)
    requires WellKeyed(repo) && Distinct(digests) && forall i | 0 <= i < |digests| :: digests[i] in repo
    ensures Unrepeated(DocsIn(repo, digests))
  {
    var docs := DocsIn(repo, digests);
    RefsAt(docs);
    hide RefsOf, WellKeyed;
    forall i, j | 0 <= i < j < |docs| ensures RefsOf(docs)[i] != RefsOf(docs)[j] {
      RefUnique(repo, digests[i], digests[j]);
    }
  }

  /** All manifests to delete are well-formed. */
  ghost predicate AllValid(repo: Repo, kept: set<Digest>, valid: Document -> bool)
  {
    forall d | d in repo && d !in kept :: valid(repo[d].doc)
  }

  lemma SelectedValid(repo: Repo, digests: seq<Digest>, kept: set<Digest>, valid: Document -> bool)
    requires Elements(digests) == repo.Keys - kept && forall i | 0 <= i < |digests| :: digests[i] in repo
    ensures var docs := DocsIn(repo, digests);
            (forall i | 0 <= i < |docs| :: valid(docs[i])) <==> AllValid(repo, kept, valid)
  {
    var docs := DocsIn(repo, digests);
    if forall i | 0 <= i < |docs| :: valid(docs[i]) {
      forall d | d in repo && d !in kept ensures valid(repo[d].doc) {
        assert d in Elements(digests);
        var i :| 0 <= i < |digests| && digests[i] == d;
        assert docs[i] == repo[d].doc;
      }
    }
    if AllValid(repo, kept, valid) {
      forall i | 0 <= i < |docs| ensures valid(docs[i]) {
        assert digests[i] in Elements(digests);
      }
    }
  }

  /** Sorts the manifests a plan deletes into the job of a run; fails exactly when one of them is
      malformed, or when their order ties one to itself. */
  method DeletionJob(repo: Repo, toDelete: seq<Digest>, unlock: bool, valid: Document -> bool,
                     ghost kept: set<Digest>, ghost accepts: set<Ref>)
    returns (order: Ordering, ghost job: Job)
    requires WellKeyed(repo) && OneOwner(repo) && Distinct(toDelete) && Elements(toDelete) == repo.Keys - kept
    ensures !order.Duplicate? && (order.Invalid? <==> !AllValid(repo, kept, valid))
    ensures order.Cyclic? <==> AllValid(repo, kept, valid) && Tied(VictimDocs(repo, kept))
    ensures order.Ordered? ==>
              && JobOf(repo, kept, unlock, job) && job.parents == order.parents && job.accepts == accepts
              && Listing(job.level, order.batches) && job.rounds == |order.batches|
              && OrdersManifests(repo, kept, order.batches, job.parents)
  {
    hide *;
    SelectedVictims(repo, toDelete, kept);
    SelectedOnce(repo, toDelete);
    SelectedValid(repo, toDelete, kept, valid);
    ghost var level;
    order, level := DeletionBatches(DocsIn(repo, toDelete), valid);
    job := Job(map[], 0, map[], map[], {});
    if order.Ordered? {
      VictimsWithin(repo, kept);
      job := Job(level, |order.batches|, order.parents, JobTargets(repo, VictimDocs(repo, kept).Keys, unlock), accepts);
      JobValid(repo, kept, unlock, job, order.batches);
      JobOfMeans(repo, kept, unlock, job);
      OrderedManifests(repo, toDelete, kept, order.batches, order.parents);
    }
  }

  /** A manifest waits for exactly the manifests that list it and the one it refers to, unless it lists
      that one itself; and these are all in earlier batches. */
  ghost predicate OrdersManifests(repo: Repo, kept: set<Digest>, batches: seq<seq<Ref>>, parents: map<Ref, seq<Ref>>)
  {
    forall d, e | d in repo && d !in kept && e in repo && e !in kept ::
      var p, c := Ref(repo[d].doc.repository, repo[d].doc.digest), Ref(repo[e].doc.repository, repo[e].doc.digest);
      && c in parents
      && (p in parents[c] <==>
          HasChild(repo[d].doc, e) || (Refers(repo[e].doc, d) && !HasChild(repo[e].doc, d)))
      && (p in parents[c] ==> EarlierBatch(batches, p, c))
  }

  lemma OrderedManifests(repo: Repo, digests: seq<Digest>, kept: set<Digest>, batches: seq<seq<Ref>>,
                         parents: map<Ref, seq<Ref>>)
    requires WellKeyed(repo) && Elements(digests) == repo.Keys - kept
    requires forall i | 0 <= i < |digests| :: digests[i] in repo
    requires FollowsFields(DocsIn(repo, digests), batches, parents)
    ensures OrdersManifests(repo, kept, batches, parents)
  {
    hide EarlierBatch, HasChild, Refers;
    var docs := DocsIn(repo, digests);
    forall d | d in repo && d !in kept ensures repo[d].doc in docs {
      assert d in Elements(digests);
      var i :| 0 <= i < |digests| && digests[i] == d;
      assert docs[i] == repo[d].doc;
    }
    forall d | d in repo ensures DocsOf(repo)[d].digest == d && repo[d].doc == DocsOf(repo)[d] {
    }
    assert forall d, e | d in repo && e in repo :: DocsOf(repo)[d].repository == DocsOf(repo)[e].repository;
    hide DocsIn, WellKeyed, DocsOf;
    forall d, e | d in repo && d !in kept && e in repo && e !in kept
      ensures Precede(repo[d].doc, repo[e].doc) <==>
              HasChild(repo[d].doc, e) || (Refers(repo[e].doc, d) && !HasChild(repo[e].doc, d))
    {
    }
    hide Precede;
  }

  /** The job deletes what is not kept, in an order worked out for it, taking off all its locks. */
  ghost predicate JobOf(repo: Repo, kept: set<Digest>, unlock: bool, job: Job)
    requires WellKeyed(repo)
  {
    && ValidJob(job) && Orders(VictimDocs(repo, kept), job.parents)
    && forall d | d in repo && d !in kept :: TakesOff(repo[d], unlock, job)
  }

  /** The job takes exactly the locks of the manifest off before it deletes it; none, unless asked to. */
  ghost predicate TakesOff(m: Manifest, unlock: bool, job: Job)
  {
    var n := Ref(m.doc.repository, m.doc.digest);
    n in job.targets && forall t :: t in job.targets[n] <==> unlock && IsLockOf(m, t)
  }

  lemma JobOfMeans(repo: Repo, kept: set<Digest>, unlock: bool, job: Job)
    requires WellKeyed(repo) && ValidJob(job) && Orders(VictimDocs(repo, kept), job.parents)
    requires forall d | d in repo && d !in kept ::
               RefOf(repo, d) in job.targets && job.targets[RefOf(repo, d)] == LockTargets(repo[d], unlock)
    ensures JobOf(repo, kept, unlock, job)
  {
    hide ValidJob, Orders, VictimDocs, LockTargets, IsLockOf;
    forall d | d in repo && d !in kept ensures TakesOff(repo[d], unlock, job) {
      LockTargetsExact(repo[d], unlock);
    }
  }

  /** Every such job has a run, from the inspected repository and whatever its locks. */
  lemma FreshRun(repo: Repo, kept: set<Digest>, unlock: bool, job: Job, flags: map<Target, Flags>)
    requires WellKeyed(repo) && JobOf(repo, kept, unlock, job)
    ensures RunOf(repo, kept, job, Fresh(job, AllRefs(repo, repo.Keys), flags), [])
  {
    hide Orders, Layered, OwnLocks, LockTargets, DocAt;
    VictimsWithin(repo, kept);
    assert job.level.Keys == VictimDocs(repo, kept).Keys by {
      OrdersKeys(VictimDocs(repo, kept), job.parents);
    }
    hide VictimDocs;
    forall r | r in job.level ensures r in AllRefs(repo, repo.Keys) {
      assert RefOf(repo, r.digest) == r;
    }
    FreshInitial(job, AllRefs(repo, repo.Keys), flags);
  }

  lemma OrdersKeys(byRef: map<Ref, Document>, parents: map<Ref, seq<Ref>>)
    requires Orders(byRef, parents)
    ensures parents.Keys == byRef.Keys
  {
  }

  lemma JobValid(repo: Repo, kept: set<Digest>, unlock: bool, job: Job, batches: seq<seq<Ref>>)
    requires WellKeyed(repo) && OneOwner(repo)
    requires job.level.Keys == VictimDocs(repo, kept).Keys && Orders(VictimDocs(repo, kept), job.parents)
    requires Levelled(job.parents, job.level) && Listing(job.level, batches) && job.rounds == |batches|
    requires forall r | r in VictimDocs(repo, kept) :: r.digest in repo
    requires job.targets == JobTargets(repo, VictimDocs(repo, kept).Keys, unlock)
    ensures ValidJob(job)
    ensures forall d | d in repo && d !in kept ::
              RefOf(repo, d) in job.targets && job.targets[RefOf(repo, d)] == LockTargets(repo[d], unlock)
  {
    VictimsWithin(repo, kept);
    JobOwns(repo, job.level.Keys, unlock, job);
    ListingWithin(job.level, batches);
    hide Levelled, LockTargets, DocAt, Before, Listing, VictimDocs, OwnLocks, Layered, Falling, Tight;
    assert job.parents.Keys == job.level.Keys;
    LevelledLayers(job);
    forall d | d in repo && d !in kept
      ensures RefOf(repo, d) in job.targets && job.targets[RefOf(repo, d)] == LockTargets(repo[d], unlock)
    {
      VictimAt(repo, kept, d);
      RefUnique(repo, d, d);
    }
  }

  lemma ListingWithin<T(!new)>(level: map<T, nat>, batches: seq<seq<T>>)
    requires Listing(level, batches)
    ensures forall n | n in level :: level[n] < |batches|
  {
  }

  lemma JobOwns(repo: Repo, refs: set<Ref>, unlock: bool, job: Job)
    requires WellKeyed(repo) && OneOwner(repo)
    requires forall r | r in refs :: r.digest in repo && RefOf(repo, r.digest) == r
    requires job.level.Keys == refs && job.targets == JobTargets(repo, refs, unlock)
    ensures OwnLocks(job)
  {
    forall n, m | n in refs && m in refs && n != m ensures Elements(job.targets[n]) !! Elements(job.targets[m]) {
      OwnTargets(repo, unlock, n.digest, m.digest);
    }
  }
}
