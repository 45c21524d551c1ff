/** The decision and the deletion run together: what remains in the registry at every moment. */
module Safety {
  import opened Manifests
  import opened Closures
  import opened DeletionOrder
  import opened Deletion
  import opened DeletionRuns

  function RefOf(repo: Repo, d: Digest): Ref
    requires d in repo
  {
    repo[d].doc.Reference()
  }

  ghost function AllRefs(repo: Repo, digests: set<Digest>): set<Ref>
  {
    set d | d in digests && d in repo :: RefOf(repo, d)
  }

  /** The documents to delete, by reference. */
  ghost function VictimDocs(repo: Repo, kept: set<Digest>): map<Ref, Document>
    requires WellKeyed(repo)
  {
    map r | r in AllRefs(repo, repo.Keys - kept) :: DocAt(repo, r)
  }

  ghost function DocAt(repo: Repo, r: Ref): Document
    requires WellKeyed(repo) && r in AllRefs(repo, repo.Keys)
  {
    assert exists d :: d in repo && RefOf(repo, d) == r && DocsOf(repo)[d].digest == d;
    repo[r.digest].doc
  }

  lemma RefUnique(repo: Repo, d: Digest, e: Digest)
    requires WellKeyed(repo) && d in repo && e in repo
    ensures RefOf(repo, d).digest == d && RefOf(repo, d).repository == RefOf(repo, e).repository
    ensures RefOf(repo, d) == RefOf(repo, e) ==> d == e
  {
    assert DocsOf(repo)[d].digest == d && DocsOf(repo)[e].digest == e;
    assert DocsOf(repo)[d].repository == DocsOf(repo)[e].repository;
  }

  lemma VictimAt(repo: Repo, kept: set<Digest>, d: Digest)
    requires WellKeyed(repo) && d in repo
    ensures RefOf(repo, d) in VictimDocs(repo, kept) <==> d !in kept
    ensures d !in kept ==> VictimDocs(repo, kept)[RefOf(repo, d)] == repo[d].doc
  {
    RefUnique(repo, d, d);
    forall e | e in repo && RefOf(repo, e) == RefOf(repo, d) ensures e == d {
      RefUnique(repo, d, e);
    }
  }

  /** A run that deletes exactly what is not kept, in the order worked out for it, starting from
      the inspected repository. */
  ghost predicate RunOf(repo: Repo, kept: set<Digest>, job: Job, before: State, events: seq<Event>)
    requires WellKeyed(repo)
  {
    && ValidJob(job) && Orders(VictimDocs(repo, kept), job.parents)
    && Initial(job, before) && before.present == AllRefs(repo, repo.Keys) && Possible(job, before, events)
  }

  /** The manifest of a document is still there. */
  ghost predicate Held(present: set<Ref>, doc: Document)
  {
    Ref(doc.repository, doc.digest) in present
  }

  /** Every remaining manifest still has every child that was there at inspection. */
  ghost predicate Whole(repo: Repo, present: set<Ref>)
  {
    forall d, c | d in repo && c in repo && HasChild(repo[d].doc, c) && Held(present, repo[d].doc) ::
      Held(present, repo[c].doc)
  }

  /** The referrers that may go before their subject: orphans, when the rule deletes these and the
      subject is kept, and indexes that list their own subject. */
  ghost predicate MayPrecede(repo: Repo, kept: set<Digest>, deleteOrphaned: bool, subject: Digest, r: Digest)
    requires r in repo
  {
    (subject in kept && deleteOrphaned && repo[r].orphaned) || HasChild(repo[r].doc, subject)
  }

  /** Every remaining subject still has all its other referrers, which name it as their subject or,
      stating none, by a tag. */
  ghost predicate Signed(repo: Repo, kept: set<Digest>, deleteOrphaned: bool, present: set<Ref>)
  {
    forall d, r | d in repo && r in repo && Refers(repo[r].doc, d) && Held(present, repo[d].doc) ::
      Held(present, repo[r].doc) || MayPrecede(repo, kept, deleteOrphaned, d, r)
  }

  lemma HeldRef(repo: Repo, present: set<Ref>, d: Digest)
    requires d in repo
    ensures Held(present, repo[d].doc) <==> RefOf(repo, d) in present
  {
  }

  lemma EdgesExact(repo: Repo, d: Digest, c: Digest)
    requires d in repo && c in repo
    ensures c in Deps(repo)[d] <==> HasChild(repo[d].doc, c)
    ensures c in Referrers(repo, d) <==> Refers(repo[c].doc, d)
  {
    RefersExact(repo[d].doc);
    RefersExact(repo[c].doc);
  }

  lemma KeptStays(repo: Repo, kept: set<Digest>, job: Job, before: State, events: seq<Event>, d: Digest)
    requires WellKeyed(repo) && RunOf(repo, kept, job, before, events) && d in repo && d in kept
    ensures RefOf(repo, d) in After(job, before, events).present
  {
    DeletedInOrder(job, before, events);
    VictimAt(repo, kept, d);
    hide After, Possible, ValidJob, Initial, VictimDocs;
    assert RefOf(repo, d) in before.present;
  }

  /** Nothing that is kept, or that is to be deleted later, is gone while its parent is there. */
  lemma LaterStays(repo: Repo, kept: set<Digest>, job: Job, before: State, events: seq<Event>, d: Digest, c: Digest)
    requires WellKeyed(repo) && RunOf(repo, kept, job, before, events)
    requires d in repo && c in repo && d !in kept && c !in kept
    requires ListsRef(repo[d].doc, RefOf(repo, c)) || GoesAfter(repo[c].doc, RefOf(repo, d))
    ensures RefOf(repo, d) in After(job, before, events).present ==>
            RefOf(repo, c) in After(job, before, events).present
  {
    VictimAt(repo, kept, d);
    VictimAt(repo, kept, c);
    hide After, Possible, Initial, VictimDocs, ListsRef, GoesAfter;
    assert Before(VictimDocs(repo, kept), RefOf(repo, d), RefOf(repo, c));
    ParentsKeepChildren(job, before, events, RefOf(repo, c), RefOf(repo, d));
  }

  lemma KeepsEdge(repo: Repo, kept: set<Digest>, deleteOrphaned: bool, d: Digest)
    requires Closed(KeepEdges(repo, deleteOrphaned), kept) && d in repo
    ensures d in kept ==> Deps(repo)[d] <= kept && FollowedReferrers(repo, d, deleteOrphaned) <= kept
  {
    assert d in kept ==> KeepEdges(repo, deleteOrphaned)[d] <= kept;
  }

  /** At every moment of every run, whatever fails and wherever it is interrupted, the registry
      holds every child of every manifest it holds, as at inspection. */
  lemma DependenciesStay(repo: Repo, kept: set<Digest>, deleteOrphaned: bool, job: Job, before: State,
                         events: seq<Event>)
    requires WellKeyed(repo) && RunOf(repo, kept, job, before, events)
    requires Closed(KeepEdges(repo, deleteOrphaned), kept)
    ensures Whole(repo, After(job, before, events).present)
  {
    var present := After(job, before, events).present;
    hide After, RunOf, HasChild, Held;
    forall d, c | d in repo && c in repo && HasChild(repo[d].doc, c) && Held(present, repo[d].doc)
      ensures Held(present, repo[c].doc)
    {
      HeldRef(repo, present, d);
      HeldRef(repo, present, c);
      EdgesExact(repo, d, c);
      RefUnique(repo, c, d);
      KeepsEdge(repo, kept, deleteOrphaned, d);
      if c in kept {
        KeptStays(repo, kept, job, before, events, c);
      } else {
        LaterStays(repo, kept, job, before, events, d, c);
      }
    }
  }

  /** At every moment of every run, the registry holds the referrers of every manifest it holds,
      but for the two kinds that may go first. */
  lemma ReferrersStay(repo: Repo, kept: set<Digest>, deleteOrphaned: bool, job: Job, before: State, events: seq<Event>)
    requires WellKeyed(repo) && RunOf(repo, kept, job, before, events)
    requires Closed(KeepEdges(repo, deleteOrphaned), kept)
    ensures Signed(repo, kept, deleteOrphaned, After(job, before, events).present)
  {
    var present := After(job, before, events).present;
    hide After, RunOf, HasChild, Refers, Held;
    forall d, r | d in repo && r in repo && Refers(repo[r].doc, d) && Held(present, repo[d].doc)
      ensures Held(present, repo[r].doc) || MayPrecede(repo, kept, deleteOrphaned, d, r)
    {
      HeldRef(repo, present, d);
      HeldRef(repo, present, r);
      EdgesExact(repo, d, r);
      EdgesExact(repo, r, d);
      RefUnique(repo, d, r);
      KeepsEdge(repo, kept, deleteOrphaned, d);
      if r in kept {
        KeptStays(repo, kept, job, before, events, r);
      } else if !MayPrecede(repo, kept, deleteOrphaned, d, r) {
        LaterStays(repo, kept, job, before, events, d, r);
      }
    }
  }
}
