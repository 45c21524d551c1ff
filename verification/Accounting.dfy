/** The counts of a prune follow from what its deletion run confirmed. */
module Accounting {
  import opened Manifests
  import opened Sums
  import opened Deletion
  import opened DeletionRuns
  import opened Safety
  import opened Statistics
  import opened Plans
  import opened PlanItems
  import opened RepositoryDeletion
  import opened Prune
  import opened Guarantees

  function DigestsIn(refs: seq<Ref>): seq<Digest>
  {
    seq(|refs|, i requires 0 <= i < |refs| => refs[i].digest)
  }

  lemma VictimList(repo: Repo, kept: set<Digest>, refs: seq<Ref>)
    requires WellKeyed(repo) && Distinct(refs) && Elements(refs) <= VictimDocs(repo, kept).Keys
    ensures Distinct(DigestsIn(refs)) && Elements(DigestsIn(refs)) <= repo.Keys - kept
    ensures Elements(refs) == VictimDocs(repo, kept).Keys ==> Elements(DigestsIn(refs)) == repo.Keys - kept
  {
    var digests := DigestsIn(refs);
    forall i | 0 <= i < |refs| ensures digests[i] in repo && digests[i] !in kept && RefOf(repo, digests[i]) == refs[i] {
      assert refs[i] in Elements(refs);
      VictimRef(repo, kept, refs[i]);
    }
    hide RefOf, WellKeyed, VictimDocs;
    if Elements(refs) == VictimDocs(repo, kept).Keys {
      forall d | d in repo && d !in kept ensures d in digests {
        VictimAt(repo, kept, d);
        RefUnique(repo, d, d);
        assert RefOf(repo, d) in Elements(refs);
        var i :| 0 <= i < |refs| && refs[i] == RefOf(repo, d);
        assert digests[i] == d;
      }
    }
  }

  lemma RunParts(repo: Repo, kept: set<Digest>, job: Job, before: State, events: seq<Event>)
    requires WellKeyed(repo) && RunOf(repo, kept, job, before, events)
    ensures ValidJob(job) && Initial(job, before) && Possible(job, before, events)
    ensures job.level.Keys == VictimDocs(repo, kept).Keys
  {
  }

  lemma FirstDeleted(job: Job, deleted: seq<Ref>)
    requires ParentsFirst(job, deleted)
    ensures Distinct(deleted)
  {
  }

  /** A finished run confirms different manifests, only ones it was to delete, and all of them when
      it reports success. */
  lemma RunConfirms(repo: Repo, kept: set<Digest>, job: Job, before: State, events: seq<Event>)
    requires WellKeyed(repo) && RunOf(repo, kept, job, before, events) && Finished(job, After(job, before, events))
    ensures var s := After(job, before, events);
            && Distinct(DigestsIn(s.deleted)) && Elements(DigestsIn(s.deleted)) <= repo.Keys - kept
            && (Succeeded(s) ==> Elements(DigestsIn(s.deleted)) == repo.Keys - kept)
  {
    var s := After(job, before, events);
    hide *;
    RunParts(repo, kept, job, before, events);
    DeletedInOrder(job, before, events);
    SuccessExactly(job, before, events);
    FirstDeleted(job, s.deleted);
    VictimList(repo, kept, s.deleted);
  }

  lemma VictimRef(repo: Repo, kept: set<Digest>, r: Ref)
    requires WellKeyed(repo) && r in VictimDocs(repo, kept)
    ensures r.digest in repo && r.digest !in kept && RefOf(repo, r.digest) == r
  {
    var d :| d in repo.Keys - kept && d in repo && RefOf(repo, d) == r;
    RefUnique(repo, d, d);
  }

  /** The counts of a prune balance whatever its run achieved: every manifest seen counts as kept or
      deleted, and the bytes deleted are those of the blobs that only confirmed manifests used. */
  lemma RunBalances(repo: Repo, kept: set<Digest>, job: Job, before: State, events: seq<Event>, all: seq<Document>)
    requires WellKeyed(repo) && RunOf(repo, kept, job, before, events) && Finished(job, After(job, before, events))
    requires Validated(DocsOf(repo), all)
    ensures var s := After(job, before, events);
            var docs, removed := DocsOf(repo), Elements(DigestsIn(s.deleted));
            var stats := Outcome(docs, all, removed, true, !Succeeded(s));
            && Balanced(stats) && stats.seenBytes == stats.keptBytes + stats.deletedBytes
            && stats.deletedManifests == |s.deleted|
            && stats.deletedBytes ==
               Sum(NamedIn(docs, docs.Keys) - NamedIn(docs, docs.Keys - removed), SizeIn(docs)) +
                   Sum(removed, Unnamed(docs))
  {
    var s := After(job, before, events);
    hide *;
    RunConfirms(repo, kept, job, before, events);
    DigestsCount(s.deleted);
    KeysOfDocs(repo);
    var removed := Elements(DigestsIn(s.deleted));
    DistinctSize(DigestsIn(s.deleted));
    OutcomeExact(DocsOf(repo), all, removed, true, !Succeeded(s));
  }

  lemma DigestsCount(refs: seq<Ref>)
    ensures |DigestsIn(refs)| == |refs|
  {
  }

  lemma KeysOfDocs(repo: Repo)
    ensures DocsOf(repo).Keys == repo.Keys
  {
  }

  // ----- the answers to a reviewed plan

  /** One repository of a plan, and what became of its deletion. */
  datatype Attempt = Attempt(repo: Repo, loaded: Repo, plan: Plan, run: Run)

  /** The attempt was to carry out this item, and is over. */
  ghost predicate Attempted(item: Item, a: Attempt)
  {
    && WellKeyed(a.repo) && WellKeyed(a.loaded) && a.plan.Planned?
    && Elements(a.plan.toDelete) == a.repo.Keys - Elements(a.plan.toKeep) && Distinct(a.plan.toDelete)
    && AsDocs(item.all) == DocsOf(a.repo) && item.selected == a.plan.toDelete && item.whole == a.plan.whole
    && Carries(a.repo, a.loaded, a.plan, a.run) && IsOver(a)
  }

  ghost predicate IsOver(a: Attempt)
    requires WellKeyed(a.repo) && WellKeyed(a.loaded) && a.plan.Planned?
    requires Carries(a.repo, a.loaded, a.plan, a.run)
  {
    match a.run
    case Piecewise(_, job, _, _) => Finished(job, StateAfter(a.repo, a.loaded, a.plan, a.run))
    case Unordered(_) => true
    case Outright(_, _, wellNamed, _, _, _, _) =>
      Ended(a.run.Job(), wellNamed, StateAfter(a.repo, a.loaded, a.plan, a.run))
  }

  /** What the deletion returns. */
  ghost function AnswerOf(a: Attempt): Answer
    requires WellKeyed(a.repo) && WellKeyed(a.loaded) && a.plan.Planned?
    requires Carries(a.repo, a.loaded, a.plan, a.run)
  {
    match a.run
    case Unordered(_) => Answer([], false)
    case Piecewise(_, _, _, _) =>
      var s := StateAfter(a.repo, a.loaded, a.plan, a.run);
      Answer(DigestsIn(s.deleted), Succeeded(s))
    case Outright(_, repository, _, _, _, _, _) =>
      if RepositoryDeleted(repository, StateAfter(a.repo, a.loaded, a.plan, a.run)) then Answer(a.plan.toDelete, true)
      else Answer([], false)
  }

  lemma AttemptMeans(item: Item, a: Attempt)
    requires Attempted(item, a)
    ensures WellKeyed(a.repo) && WellKeyed(a.loaded) && a.plan.Planned? && Carries(a.repo, a.loaded, a.plan, a.run)
    ensures Elements(a.plan.toDelete) == a.repo.Keys - Elements(a.plan.toKeep) && Distinct(a.plan.toDelete)
    ensures item.selected == a.plan.toDelete && item.whole == a.plan.whole
    ensures a.run.Piecewise? ==>
              var s := StateAfter(a.repo, a.loaded, a.plan, a.run);
              Finished(a.run.job, s) && AnswerOf(a) == Answer(DigestsIn(s.deleted), Succeeded(s))
    ensures !a.run.Piecewise? ==> AnswerOf(a) == Answer([], false) || AnswerOf(a) == Answer(a.plan.toDelete, true)
    ensures a.run.Unordered? ==> AnswerOf(a) == Answer([], false)
  {
    hide Carries, StateAfter, DigestsIn, Finished, Ended, WellKeyed, RepositoryDeleted;
  }

  lemma HonestNever(item: Item)
    requires Distinct(item.selected)
    ensures Honest(item, Answer([], false)) && Honest(item, Answer(item.selected, true))
  {
  }

  /** What a finished deletion confirms is an honest answer, of single manifests and of a whole
      repository. */
  lemma RunAnswers(item: Item, a: Attempt)
    requires Attempted(item, a)
    ensures Honest(item, AnswerOf(a))
  {
    hide *;
    AttemptMeans(item, a);
    CarriesMeans(a.repo, a.loaded, a.plan, a.run);
    HonestNever(item);
    if a.run.Piecewise? {
      RunConfirms(a.repo, Elements(a.plan.toKeep), a.run.job, a.run.before, a.run.events);
      HonestPart(item, AnswerOf(a));
    }
  }

  lemma HonestPart(item: Item, answer: Answer)
    requires !item.whole && Distinct(answer.confirmed) && Elements(answer.confirmed) <= Elements(item.selected)
    requires answer.ok ==> Elements(answer.confirmed) == Elements(item.selected)
    ensures Honest(item, answer)
  {
  }

  /** The plan was reviewed, and each answer is what a finished attempt at its item confirms. */
  ghost predicate Answered(items: seq<Item>, answers: seq<Answer>, attempts: seq<Attempt>)
  {
    && |answers| == |items| == |attempts|
    && forall i {:trigger attempts[i]} | 0 <= i < |items| ::
         Reviewed(items[i]) && Attempted(items[i], attempts[i]) && answers[i] == AnswerOf(attempts[i])
  }

  lemma AnswersReady(items: seq<Item>, answers: seq<Answer>, attempts: seq<Attempt>)
    requires Answered(items, answers, attempts)
    ensures |answers| == |items| && Ready(items, answers)
  {
    hide Reviewed, Attempted, AnswerOf, Honest;
    forall i | 0 <= i < |items| ensures Reviewed(items[i]) && Honest(items[i], answers[i]) {
      var a := attempts[i];
      RunAnswers(items[i], a);
    }
  }
}
