/** Planning the prune of one repository (pruneRepository in internal/pruner/pruner.go). */
module Prune {
  import opened Manifests
  import opened Closures
  import opened Sums
  import opened Rules
  import opened Order
  import opened Retention
  import opened TagLocks
  import opened Decisions
  import Orphans

  /** The repository once orphans and owners are marked. */
  ghost function WithOrphans(repo: Repo): Repo
  {
    var docs := DocsOf(repo);
    map d | d in repo :: repo[d].(orphaned := d in Orphans.OrphanSet(docs), hasOwner := Orphans.Owned(docs, d))
  }

  method MarkPass(entries: Entries)
    requires Separate(entries)
    modifies entries.Values`orphaned, entries.Values`hasOwner
    ensures View(entries) == WithOrphans(old(View(entries)))
  {
    ghost var before := View(entries);
    assert DocsOf(before) == EntryDocs(entries);
    Orphans.MarkOrphans(entries);
    forall d | d in entries
      ensures entries[d].orphaned <==> d in Orphans.OrphanSet(DocsOf(before))
      ensures entries[d].hasOwner <==> Orphans.Owned(DocsOf(before), d)
    {
      assert entries[d].orphaned <==> d in Orphans.FlagSet(entries);
      assert entries[d].hasOwner <==> d in Orphans.OwnedSet(entries);
    }
  }

  /** Orphans stop the run unless the rule ignores missing manifests or deletes orphans. */
  ghost predicate Reported(repo: Repo, rule: RepoRule)
  {
    !rule.ignoreMissing && !rule.deleteOrphaned && exists d | d in repo :: repo[d].orphaned
  }

  method ReportOrphans(entries: Entries, rule: RepoRule) returns (ok: bool)
    ensures ok <==> !Reported(View(entries), rule)
  {
    if rule.ignoreMissing || rule.deleteOrphaned {
      return true;
    }
    var orphaned := 0;
    var todo := entries.Keys;
    while todo != {}
      invariant todo <= entries.Keys && orphaned >= 0
      invariant orphaned == 0 <==> forall d | d in entries && d !in todo :: !entries[d].orphaned
      decreases todo
    {
      var d :| d in todo;
      if entries[d].orphaned {
        orphaned := orphaned + 1;
      }
      todo := todo - {d};
    }
    assert forall d | d in entries :: View(entries)[d].orphaned == entries[d].orphaned;
    ok := orphaned == 0;
  }

  // ----- the listing

  ghost predicate Arranged(order: seq<Digest>, docs: Docs)
  {
    && Distinct(order) && Elements(order) == docs.Keys
    && forall i, j | 0 <= i < j < |order| ::
         order[i] in docs && order[j] in docs && !Newer(docs[order[j]], docs[order[i]])
  }

  function ListOf(repo: Repo, order: seq<Digest>): seq<Manifest>
    requires forall i | 0 <= i < |order| :: order[i] in repo
  {
    seq(|order|, i requires 0 <= i < |order| => repo[order[i]])
  }

  lemma ArrangedWithin(order: seq<Digest>, repo: Repo)
    requires Arranged(order, DocsOf(repo))
    ensures forall i | 0 <= i < |order| :: order[i] in repo
  {
    forall i | 0 <= i < |order| ensures order[i] in repo {
      assert order[i] in Elements(order);
    }
  }

  lemma ArrangedLists(order: seq<Digest>, repo: Repo)
    requires WellKeyed(repo) && Arranged(order, DocsOf(repo))
    ensures forall i | 0 <= i < |order| :: order[i] in repo
    ensures Lists(ListOf(repo, order), repo) && NewestFirst(ListOf(repo, order))
  {
    ArrangedWithin(order, repo);
    var all := ListOf(repo, order);
    forall i | 0 <= i < |all| ensures all[i].doc == DocsOf(repo)[order[i]] && all[i].doc.digest == order[i] {
    }
    forall d | d in repo ensures repo[d] in all {
      assert d in Elements(order);
      var i :| 0 <= i < |order| && order[i] == d;
      assert all[i] == repo[d];
    }
  }

  /** The manifests in whatever order the map yields them. */
  method Collect(repo: Repo) returns (list: seq<Manifest>)
    requires WellKeyed(repo)
    ensures Lists(list, repo)
  {
    list := [];
    var todo := repo.Keys;
    while todo != {}
      invariant todo <= repo.Keys && DistinctDigests(list)
      invariant forall i | 0 <= i < |list| ::
                  list[i].doc.digest in repo.Keys - todo && repo[list[i].doc.digest] == list[i]
      invariant forall d | d in repo && d !in todo :: repo[d] in list
      decreases todo
    {
      var d :| d in todo;
      assert DocsOf(repo)[d].digest == d;
      ghost var was := list;
      list := list + [repo[d]];
      assert list[|was|] == repo[d];
      assert forall m | m in was :: m in list;
      todo := todo - {d};
    }
  }

  /** The digests, newest manifest first. */
  method Arrange(repo: Repo) returns (order: seq<Digest>)
    requires WellKeyed(repo)
    ensures Arranged(order, DocsOf(repo)) && LatestFirst(order, DocsOf(repo))
  {
    var list := Collect(repo);
    var all := SortNewest(list);
    SortDistinct(list);
    ListedTogether(list, repo);
    SortOrdered(list);
    SortedPresent(list, all, repo);
    order := seq(|all|, i requires 0 <= i < |all| => all[i].doc.digest);
    DigestsArranged(all, order, repo);
    ArrangedByTime(order, DocsOf(repo));
  }

  /** Later updates come first and, at one time, smaller digests. */
  ghost predicate LatestFirst(order: seq<Digest>, docs: Docs)
  {
    forall i, j | 0 <= i < j < |order| ::
      && order[i] in docs && order[j] in docs && docs[order[i]].updated >= docs[order[j]].updated
      && (docs[order[i]].updated == docs[order[j]].updated ==> Precedes(order[i], order[j]))
  }

  lemma ArrangedByTime(order: seq<Digest>, docs: Docs)
    requires WellKeyedDocs(docs) && Arranged(order, docs)
    ensures LatestFirst(order, docs)
  {
    hide Newer, Precedes;
    forall i, j | 0 <= i < j < |order|
      ensures order[i] in docs && order[j] in docs && docs[order[i]].updated >= docs[order[j]].updated
      ensures docs[order[i]].updated == docs[order[j]].updated ==> Precedes(order[i], order[j])
    {
      var a, b := docs[order[i]], docs[order[j]];
      assert order[i] != order[j];
      NewerTotal(a, b);
      NewerExact(a, b);
    }
  }

  lemma DigestsArranged(all: seq<Manifest>, order: seq<Digest>, repo: Repo)
    requires WellKeyed(repo) && Lists(all, repo) && NewestFirst(all)
    requires |order| == |all| && forall i | 0 <= i < |all| :: order[i] == all[i].doc.digest
    ensures Arranged(order, DocsOf(repo))
  {
    forall d | d in repo ensures d in Elements(order) {
      assert DocsOf(repo)[d].digest == d;
      var i :| 0 <= i < |all| && all[i] == repo[d];
      assert order[i] == d;
    }
    forall i | 0 <= i < |order| ensures order[i] in repo && DocsOf(repo)[order[i]] == all[i].doc {
    }
  }

  lemma ListedTogether(list: seq<Manifest>, repo: Repo)
    requires WellKeyed(repo) && Lists(list, repo)
    ensures DistinctDigests(list)
    ensures forall i, j | 0 <= i < |list| && 0 <= j < |list| :: list[i].doc.repository == list[j].doc.repository
  {
    forall i, j | 0 <= i < |list| && 0 <= j < |list| ensures list[i].doc.repository == list[j].doc.repository {
      assert DocsOf(repo)[list[i].doc.digest].repository == DocsOf(repo)[list[j].doc.digest].repository;
    }
  }

  lemma SortedPresent(list: seq<Manifest>, all: seq<Manifest>, repo: Repo)
    requires Lists(list, repo) && forall x :: x in all <==> x in list
    ensures forall i | 0 <= i < |all| :: all[i].doc.digest in repo && repo[all[i].doc.digest] == all[i]
    ensures forall d | d in repo :: repo[d] in all
  {
    forall i | 0 <= i < |all| ensures all[i].doc.digest in repo && repo[all[i].doc.digest] == all[i] {
      assert all[i] in list;
    }
  }

  // ----- the two decisions

  /** The repository as the second decision sees it. */
  ghost function LoadedRepo(p: Pruner, repo: Repo, rule: RepoRule, now: int, locked: set<string>): (loaded: Repo)
    requires WellKeyed(repo) && Decision(p, repo, rule, now).Some?
    ensures WellKeyed(loaded) && SameButLocks(repo, loaded)
  {
    var candidates := LockCandidates(p, repo, rule, Decision(p, repo, rule, now).value);
    KeyedAnyway(repo, candidates, locked);
    WithTagLocks(repo, candidates, locked)
  }

  ghost predicate Unloaded(repo: Repo)
  {
    forall d | d in repo :: repo[d].lockedTags == []
  }

  function LockedNames(listing: TagListing): set<string>
  {
    if listing.Listed? then listing.locked else {}
  }

  lemma LoadedAnyway(repo: Repo, candidates: set<Digest>, locked: set<string>)
    requires Unloaded(repo)
    requires locked == {} || forall d | d in candidates && d in repo :: repo[d].doc.tags == []
    ensures WithTagLocks(repo, candidates, locked) == repo
  {
    forall d | d in repo ensures WithTagLocks(repo, candidates, locked)[d] == repo[d] {
      LockedTagsExact(repo[d].doc.tags, locked);
    }
  }

  method DecideOnce(p: Pruner, entries: Entries, rule: RepoRule, now: int, order: seq<Digest>)
    returns (ok: bool, decider: Decider)
    requires WellKeyed(View(entries)) && Arranged(order, DocsOf(View(entries)))
    ensures fresh(decider) && decider.pruner == p && decider.repo == View(entries) && decider.rule == rule &&
            decider.now == now
    ensures ok <==> Decision(p, View(entries), rule, now).Some?
    ensures ok ==> Decision(p, View(entries), rule, now) == Some(decider.kept)
  {
    hide Decision, View, Arranged;
    var repo := View(entries);
    ArrangedLists(order, repo);
    decider := new Decider(p, repo, rule, now);
    ok := decider.Decide(ListOf(repo, order));
  }

  /** The digests of the order that are in the set, and the others. */
  method Split(order: seq<Digest>, kept: set<Digest>) returns (inside: seq<Digest>, outside: seq<Digest>)
    requires Distinct(order)
    ensures Distinct(inside) && Elements(inside) == Elements(order) * kept
    ensures Distinct(outside) && Elements(outside) == Elements(order) - kept
  {
    inside, outside := [], [];
    var i := 0;
    while i < |order|
      invariant i <= |order|
      invariant Distinct(inside) && Elements(inside) == Elements(order[..i]) * kept
      invariant Distinct(outside) && Elements(outside) == Elements(order[..i]) - kept
    {
      assert order[..i + 1] == order[..i] + [order[i]];
      assert order[i] !in Elements(order[..i]);
      assert order[i] !in Elements(inside) && order[i] !in Elements(outside);
      if order[i] in kept {
        inside := inside + [order[i]];
      } else {
        outside := outside + [order[i]];
      }
      i := i + 1;
    }
    assert order[..i] == order;
  }

  /** Loading fails: it was cancelled, or the tags of a tagged candidate cannot be listed. */
  ghost predicate LoadStops(repo: Repo, candidates: set<Digest>, lookup: TagLookup)
  {
    lookup.cancelled || (!lookup.listing.Unsupported? && (!lookup.validName || lookup.listing.Refused?) &&
                         exists d :: d in candidates && d in repo && repo[d].doc.tags != [])
  }

  /** Loads the tag locks the first decision asks for. */
  method LoadFor(p: Pruner, entries: Entries, rule: RepoRule, kept: set<Digest>, order: seq<Digest>,
                 lookup: TagLookup) returns (ok: bool)
    requires Separate(entries) && Unloaded(View(entries)) && Distinct(order) && Elements(order) == entries.Keys
    modifies entries.Values`lockedTags
    ensures ok ==> View(entries) ==
                   WithTagLocks(old(View(entries)), LockCandidates(p, old(View(entries)), rule, kept),
                                LockedNames(lookup.listing))
    ensures var repo := old(View(entries));
            ok <==> repo.Keys <= kept || !LoadStops(repo, LockCandidates(p, repo, rule, kept), lookup)
  {
    hide *;
    ghost var before, locked := View(entries), LockedNames(lookup.listing);
    ViewDocs(entries);
    var inside, selected := Split(order, kept);
    SelectedAny(selected, entries.Keys, kept);
    NoCandidates(p, before, rule, kept, locked);
    if |selected| == 0 {
      return true;
    }
    var candidates := if rule.mustDeleteEverything && !p.includeLocked then order else selected;
    CandidatesAre(p, before, rule, kept, candidates);
    LoadsNothing(entries, candidates, before, lookup);
    ok := LoadTagLocks(entries, candidates, lookup);
  }

  lemma NoCandidates(p: Pruner, repo: Repo, rule: RepoRule, kept: set<Digest>, locked: set<string>)
    requires Unloaded(repo)
    ensures repo.Keys <= kept ==> WithTagLocks(repo, LockCandidates(p, repo, rule, kept), locked) == repo
  {
    LoadedAnyway(repo, {}, locked);
  }

  lemma CandidatesAre(p: Pruner, repo: Repo, rule: RepoRule, kept: set<Digest>, candidates: seq<Digest>)
    requires !(repo.Keys <= kept)
    requires Elements(candidates) ==
             if rule.mustDeleteEverything && !p.includeLocked then repo.Keys else repo.Keys - kept
    ensures Elements(candidates) == LockCandidates(p, repo, rule, kept)
    ensures forall i | 0 <= i < |candidates| :: candidates[i] in repo
  {
    forall i | 0 <= i < |candidates| ensures candidates[i] in repo {
      assert candidates[i] in Elements(candidates);
    }
  }

  /** What the listing comes to: a failure, the locks of the candidates, or nothing to record. */
  lemma LoadsNothing(entries: Entries, candidates: seq<Digest>, before: Repo, lookup: TagLookup)
    requires Unloaded(before) && DocsOf(before) == EntryDocs(entries)
    requires forall i | 0 <= i < |candidates| :: candidates[i] in before
    ensures LoadFails(entries, candidates, lookup) <==>
              LoadStops(before, Elements(candidates), lookup)
    ensures Loads(entries, candidates, lookup) ==>
              lookup.listing.Listed? && lookup.listing.locked == LockedNames(lookup.listing)
    ensures !LoadFails(entries, candidates, lookup) && !Loads(entries, candidates, lookup) ==>
              WithTagLocks(before, Elements(candidates), LockedNames(lookup.listing)) == before
  {
    hide WithTagLocks;
    DocsKeys(before, entries);
    TagsKnown(entries, candidates, before);
    if !LoadFails(entries, candidates, lookup) && !Loads(entries, candidates, lookup) {
      assert LockedNames(lookup.listing) == {} || Untagged(entries, candidates);
      LoadedAnyway(before, Elements(candidates), LockedNames(lookup.listing));
    }
  }

  lemma TagsKnown(entries: Entries, candidates: seq<Digest>, before: Repo)
    requires DocsOf(before) == EntryDocs(entries) && forall i | 0 <= i < |candidates| :: candidates[i] in before
    ensures Untagged(entries, candidates) <==>
              forall d | d in Elements(candidates) && d in before :: before[d].doc.tags == []
  {
    DocsKeys(before, entries);
    forall d | d in before ensures before[d].doc == entries[d].doc {
      assert DocsOf(before)[d] == EntryDocs(entries)[d];
    }
    forall i | 0 <= i < |candidates| ensures candidates[i] in Elements(candidates) {
    }
  }

  lemma DocsKeys(repo: Repo, entries: Entries)
    requires DocsOf(repo) == EntryDocs(entries)
    ensures repo.Keys == entries.Keys
  {
    assert DocsOf(repo).Keys == repo.Keys && EntryDocs(entries).Keys == entries.Keys;
  }

  lemma ViewDocs(entries: Entries)
    ensures DocsOf(View(entries)) == EntryDocs(entries) && View(entries).Keys == entries.Keys
  {
  }

  lemma SelectedAny(selected: seq<Digest>, all: set<Digest>, kept: set<Digest>)
    requires Elements(selected) == all - kept
    ensures |selected| == 0 <==> all <= kept
  {
    if |selected| > 0 {
      assert selected[0] in Elements(selected);
      assert selected[0] in all - kept;
    } else {
      assert all - kept == {};
      forall d | d in all ensures d in kept {
        assert d !in all - kept;
      }
    }
  }

  // ----- the plan

  datatype Plan =
    | Planned(toKeep: seq<Digest>, toDelete: seq<Digest>, whole: bool)
    | Empty
    | Orphaned
    | Undecided

  /** Which digests a plan may keep: what the second decision keeps and, on registries that refuse
      to delete the last tag, the best tagged manifest when nothing else tagged is kept. */
  ghost predicate Keeps(p: Pruner, repo: Repo, rule: RepoRule, now: int, decided: set<Digest>, protectsLastTag: bool,
                        kept: set<Digest>)
  {
    if protectsLastTag && decided != {} && NeedsLastTag(repo, decided)
    then exists last :: BestTagged(repo, last) && kept == WithLastTag(p, repo, rule, now, decided, last)
    else kept == decided
  }

  /** A plan for the repository, given the locked tags. */
  ghost predicate PlanFor(p: Pruner, repo: Repo, rule: RepoRule, now: int, locked: set<string>, protectsLastTag: bool,
                          plan: Plan)
    requires WellKeyed(repo) && plan.Planned?
  {
    var decided := LazyDecision(p, repo, rule, now, locked);
    && decided.Some? && plan.whole == (decided.value == {})
    && Keeps(p, LoadedRepo(p, repo, rule, now, locked), rule, now, decided.value, protectsLastTag,
             Elements(plan.toKeep))
    && Distinct(plan.toKeep) && Elements(plan.toKeep) <= repo.Keys
    && Distinct(plan.toDelete) && Elements(plan.toDelete) == repo.Keys - Elements(plan.toKeep)
  }

  /** Keeping the last tag fails on a dependency missing from it. */
  ghost predicate LastTagFails(p: Pruner, repo: Repo, rule: RepoRule, now: int, decided: set<Digest>)
  {
    decided != {} && NeedsLastTag(repo, decided) &&
    exists last :: BestTagged(repo, last) && Fails(repo, rule, WithLastTag(p, repo, rule, now, decided, last) - decided)
  }

  /** The second decision, and the last tag. */
  method DecideFinally(p: Pruner, entries: Entries, rule: RepoRule, now: int, order: seq<Digest>, protectsLastTag: bool)
    returns (ok: bool, decided: set<Digest>, kept: set<Digest>)
    requires WellKeyed(View(entries)) && Arranged(order, DocsOf(View(entries)))
    ensures ok ==> Decision(p, View(entries), rule, now) == Some(decided)
    ensures ok ==> Keeps(p, View(entries), rule, now, decided, protectsLastTag, kept)
    ensures ok <==> var d := Decision(p, View(entries), rule, now);
                    d.Some? && !(protectsLastTag && LastTagFails(p, View(entries), rule, now, d.value))
  {
    hide *;
    var repo := View(entries);
    var decider;
    ok, decider := DecideOnce(p, entries, rule, now, order);
    decided, kept := decider.kept, decider.kept;
    if !ok {
      return;
    }
    DecidedClosed(p, repo, rule, now);
    KeepsDecided(p, repo, rule, now, decided, protectsLastTag);
    if |decided| == 0 || !protectsLastTag {
      return;
    }
    ArrangedLists(order, repo);
    DeciderValid(decider);
    var last;
    ok, last := decider.KeepLastTag(ListOf(repo, order));
    kept := decider.kept;
    if last.Some? {
      KeepsLast(p, repo, rule, now, decided, last.value);
    }
  }

  lemma DecidedClosed(p: Pruner, repo: Repo, rule: RepoRule, now: int)
    requires WellKeyed(repo) && Decision(p, repo, rule, now).Some?
    ensures var decided := Decision(p, repo, rule, now).value;
            decided <= repo.Keys && Closed(Deps(repo), decided)
  {
    DecisionSound(p, repo, rule, now);
    KeepClosed(repo, rule, Decision(p, repo, rule, now).value);
  }

  lemma DeciderValid(decider: Decider)
    requires decider.kept <= decider.repo.Keys && Closed(Deps(decider.repo), decider.kept)
    ensures decider.Valid()
  {
  }

  lemma KeepsDecided(p: Pruner, repo: Repo, rule: RepoRule, now: int, decided: set<Digest>, protectsLastTag: bool)
    ensures !protectsLastTag || |decided| == 0 || !NeedsLastTag(repo, decided) ==>
              Keeps(p, repo, rule, now, decided, protectsLastTag, decided)
    ensures |decided| == 0 || !NeedsLastTag(repo, decided) ==> !LastTagFails(p, repo, rule, now, decided)
  {
  }

  /** No two manifests are both best. */
  lemma BestUnique(repo: Repo, a: Digest, b: Digest)
    requires WellKeyed(repo) && BestTagged(repo, a) && BestTagged(repo, b)
    ensures a == b
  {
    if a != b {
      assert DocsOf(repo)[a].repository == DocsOf(repo)[b].repository;
      PreferredRanks(repo[a], repo[b]);
      PreferredRanks(repo[b], repo[a]);
      NewerTotal(repo[a].doc, repo[b].doc);
      assert false;
    }
  }

  lemma KeepsLast(p: Pruner, repo: Repo, rule: RepoRule, now: int, decided: set<Digest>, last: Digest)
    requires WellKeyed(repo) && BestTagged(repo, last) && decided != {} && NeedsLastTag(repo, decided)
    ensures Keeps(p, repo, rule, now, decided, true, WithLastTag(p, repo, rule, now, decided, last))
    ensures LastTagFails(p, repo, rule, now, decided) <==>
              Fails(repo, rule, WithLastTag(p, repo, rule, now, decided, last) - decided)
  {
    hide BestTagged, WithLastTag, Fails, NeedsLastTag;
    forall other | BestTagged(repo, other) ensures other == last {
      BestUnique(repo, last, other);
    }
  }

  /** Decides, loads the tag locks, decides again, and keeps the last tag where that is needed. */
  method DecideTwice(p: Pruner, entries: Entries, rule: RepoRule, now: int, order: seq<Digest>, protectsLastTag: bool,
                     lookup: TagLookup) returns (ok: bool, decided: set<Digest>, kept: set<Digest>)
    requires Separate(entries) && WellKeyed(View(entries)) && Unloaded(View(entries))
    requires Arranged(order, DocsOf(View(entries)))
    modifies entries.Values`lockedTags
    ensures ok ==> LazyDecision(p, old(View(entries)), rule, now, LockedNames(lookup.listing)) == Some(decided)
    ensures ok ==> View(entries) == LoadedRepo(p, old(View(entries)), rule, now, LockedNames(lookup.listing))
    ensures ok ==> Keeps(p, View(entries), rule, now, decided, protectsLastTag, kept)
    ensures ok <==> !Stuck(p, old(View(entries)), rule, now, protectsLastTag, lookup)
  {
    hide Decision, View, Arranged, WithTagLocks, Unloaded, Keeps, LastTagFails, LockCandidates, LoadStops, WellKeyed;
    ghost var before, locked := View(entries), LockedNames(lookup.listing);
    decided, kept := {}, {};
    ViewDocs(entries);
    var decider;
    ok, decider := DecideOnce(p, entries, rule, now, order);
    if !ok {
      return;
    }
    ArrangedKeys(order, before);
    ok := LoadFor(p, entries, rule, decider.kept, order, lookup);
    if !ok {
      return;
    }
    KeyedAnyway(before, LockCandidates(p, before, rule, decider.kept), locked);
    SameDocs(before, View(entries));
    ok, decided, kept := DecideFinally(p, entries, rule, now, order, protectsLastTag);
  }

  /** Nothing is decided: a dependency is missing, or tag locks that matter cannot be looked up. */
  ghost predicate Stuck(p: Pruner, repo: Repo, rule: RepoRule, now: int, protectsLastTag: bool, lookup: TagLookup)
    requires WellKeyed(repo)
  {
    var first, decided := Decision(p, repo, rule, now), LazyDecision(p, repo, rule, now, LockedNames(lookup.listing));
    || first.None?
    || (!(repo.Keys <= first.value) && LoadStops(repo, LockCandidates(p, repo, rule, first.value), lookup))
    || decided.None?
    || (protectsLastTag &&
        LastTagFails(p, LoadedRepo(p, repo, rule, now, LockedNames(lookup.listing)), rule, now, decided.value))
  }

  lemma ArrangedKeys(order: seq<Digest>, repo: Repo)
    requires Arranged(order, DocsOf(repo))
    ensures Distinct(order) && Elements(order) == repo.Keys
  {
  }

  lemma SameDocs(repo: Repo, other: Repo)
    requires SameButLocks(repo, other)
    ensures DocsOf(repo) == DocsOf(other)
  {
    SameGraph(repo, other, false);
  }

  lemma LazyFirst(p: Pruner, repo: Repo, rule: RepoRule, now: int, locked: set<string>)
    requires WellKeyed(repo)
    ensures LazyDecision(p, repo, rule, now, locked).Some? ==> Decision(p, repo, rule, now).Some?
  {
    hide Decision;
  }

  /** The plan for a repository whose orphans are marked. */
  method PlanMarked(p: Pruner, entries: Entries, rule: RepoRule, now: int, protectsLastTag: bool,
                    lookup: TagLookup) returns (plan: Plan)
    requires Separate(entries) && WellKeyed(View(entries)) && Unloaded(View(entries))
    modifies entries.Values`lockedTags
    ensures plan.Planned? || plan.Undecided?
    ensures plan.Undecided? <==> Stuck(p, old(View(entries)), rule, now, protectsLastTag, lookup)
    ensures plan.Planned? ==>
              var repo, locked := old(View(entries)), LockedNames(lookup.listing);
              && PlanFor(p, repo, rule, now, locked, protectsLastTag, plan)
              && Decision(p, repo, rule, now).Some? && View(entries) == LoadedRepo(p, repo, rule, now, locked)
  {
    hide *;
    ghost var repo, locked := View(entries), LockedNames(lookup.listing);
    var order := Arrange(View(entries));
    ArrangedKeys(order, repo);
    var ok, decided, kept := DecideTwice(p, entries, rule, now, order, protectsLastTag, lookup);
    if !ok {
      return Undecided;
    }
    var toKeep, toDelete := Split(order, kept);
    plan := Planned(toKeep, toDelete, |decided| == 0);
    LazyFirst(p, repo, rule, now, locked);
    Assembled(p, repo, rule, now, locked, protectsLastTag, decided, kept, plan);
  }

  /** What pruning a repository would keep and delete. A plan leaves the tag locks loaded that its
      decision asked for. */
  method PlanRepository(p: Pruner, entries: Entries, rule: RepoRule, now: int, protectsLastTag: bool,
                        lookup: TagLookup) returns (plan: Plan)
    requires Separate(entries) && WellKeyed(View(entries)) && Unloaded(View(entries))
    modifies entries.Values`orphaned, entries.Values`hasOwner, entries.Values`lockedTags
    ensures plan.Empty? <==> entries.Keys == {}
    ensures plan.Orphaned? <==> entries.Keys != {} && Reported(WithOrphans(old(View(entries))), rule)
    ensures WellKeyed(WithOrphans(old(View(entries))))
    ensures plan.Planned? ==>
              var repo, locked := WithOrphans(old(View(entries))), LockedNames(lookup.listing);
              && PlanFor(p, repo, rule, now, locked, protectsLastTag, plan)
              && Decision(p, repo, rule, now).Some? && View(entries) == LoadedRepo(p, repo, rule, now, locked)
    ensures plan.Undecided? <==> entries.Keys != {} && !Reported(WithOrphans(old(View(entries))), rule) &&
                                 Stuck(p, WithOrphans(old(View(entries))), rule, now, protectsLastTag, lookup)
  {
    hide *;
    OrphansOnly(View(entries));
    if |entries| == 0 {
      return Empty;
    }
    MarkPass(entries);
    ViewDocs(entries);
    var ok := ReportOrphans(entries, rule);
    if !ok {
      return Orphaned;
    }
    plan := PlanMarked(p, entries, rule, now, protectsLastTag, lookup);
  }

  lemma Assembled(p: Pruner, repo: Repo, rule: RepoRule, now: int, locked: set<string>, protectsLastTag: bool,
                  decided: set<Digest>, kept: set<Digest>, plan: Plan)
    requires WellKeyed(repo) && LazyDecision(p, repo, rule, now, locked) == Some(decided)
    requires Keeps(p, LoadedRepo(p, repo, rule, now, locked), rule, now, decided, protectsLastTag, kept)
    requires plan.Planned? && (plan.whole <==> |decided| == 0)
    requires Distinct(plan.toKeep) && Elements(plan.toKeep) == repo.Keys * kept
    requires Distinct(plan.toDelete) && Elements(plan.toDelete) == repo.Keys - kept
    ensures PlanFor(p, repo, rule, now, locked, protectsLastTag, plan)
  {
    hide Keeps, Decision, WithTagLocks;
    var second := LoadedRepo(p, repo, rule, now, locked);
    KeyedAnyway(repo, LockCandidates(p, repo, rule, Decision(p, repo, rule, now).value), locked);
    DecisionSound(p, second, rule, now);
    KeepsWithin(p, second, rule, now, decided, protectsLastTag, kept);
    assert Elements(plan.toKeep) == kept;
  }

  lemma EdgesWithin(repo: Repo, deleteOrphaned: bool)
    ensures forall x | x in KeepEdges(repo, deleteOrphaned) :: KeepEdges(repo, deleteOrphaned)[x] <= repo.Keys
  {
  }

  lemma KeepsWithin(p: Pruner, repo: Repo, rule: RepoRule, now: int, decided: set<Digest>, protectsLastTag: bool,
                    kept: set<Digest>)
    requires Keeps(p, repo, rule, now, decided, protectsLastTag, kept) && decided <= repo.Keys
    ensures kept <= repo.Keys
  {
    hide NeedsLastTag, BestTagged, Reach, KeepEdges, Protected;
    if kept != decided {
      var last :| BestTagged(repo, last) && kept == WithLastTag(p, repo, rule, now, decided, last);
      BestPresent(repo, last);
      EdgesWithin(repo, rule.deleteOrphaned);
      ReachWithin(KeepEdges(repo, rule.deleteOrphaned), decided + {last} + ProtectedReferrers(p, repo, now), repo.Keys);
    }
  }

  lemma OrphansOnly(repo: Repo)
    requires WellKeyed(repo) && Unloaded(repo)
    ensures DocsOf(WithOrphans(repo)) == DocsOf(repo) && WellKeyed(WithOrphans(repo)) && Unloaded(WithOrphans(repo))
    ensures WithOrphans(repo).Keys == repo.Keys
  {
    assert DocsOf(WithOrphans(repo)) == DocsOf(repo);
  }
}
