/** When knowing all tag locks from the start would have decided otherwise than loading them lazily
    (the two passes of pruneRepository in internal/pruner/pruner.go). */
module LazyGaps {
  import opened Manifests
  import opened Closures
  import opened Rules
  import opened Evaluation
  import opened Retention
  import opened TagLocks
  import opened Decisions
  import opened Prune
  import opened Selection
  import Orphans

  // ----- the condition for a whole prune

  /** A manifest with a missing child is an orphan. */
  lemma BrokenOrphaned(raw: Repo, d: Digest)
    requires d in raw && Broken(raw, d)
    ensures d in WithOrphans(raw) && WithOrphans(raw)[d].orphaned
  {
    var docs := DocsOf(raw);
    Orphans.OrphanSetLeast(docs);
    var c :| c in docs[d].Children() && c !in raw;
    var i :| 0 <= i < |docs[d].children| && docs[d].children[i].digest == c;
    assert Orphans.ListsBefore(docs[d], |docs[d].children|, c);
    hide Orphans.OrphanSet;
    assert Orphans.Needs(docs, d, c) && c !in docs;
    assert Orphans.Condemned(docs, Orphans.OrphanSet(docs), d);
  }

  lemma FailsOrphaned(raw: Repo, rule: RepoRule, s: set<Digest>)
    requires Fails(WithOrphans(raw), rule, s)
    ensures !rule.ignoreMissing && exists d | d in WithOrphans(raw) :: WithOrphans(raw)[d].orphaned
  {
    var repo := WithOrphans(raw);
    var d :| d in s && d in repo && Broken(repo, d);
    BrokenOrphaned(raw, d);
  }

  /** Orphans that are neither ignored nor deleted stop a prune before it decides anything, so it
      meets a gap only under a rule that deletes orphans. */
  lemma GapDeletesOrphans(p: Pruner, raw: Repo, eager: Repo, rule: RepoRule, now: int)
    requires WellKeyed(WithOrphans(raw)) && WellKeyed(eager) && !Reported(WithOrphans(raw), rule)
    ensures LazyGap(p, WithOrphans(raw), eager, rule, now) ==> rule.deleteOrphaned && !rule.ignoreMissing
  {
    hide Rooted, Kept, Forced, WithOrphans, Fails;
    var repo := WithOrphans(raw);
    if LazyGap(p, repo, eager, rule, now) {
      if Fails(repo, rule, Rooted(p, eager, rule, now)) {
        FailsOrphaned(raw, rule, Rooted(p, eager, rule, now));
      } else {
        FailsOrphaned(raw, rule, Kept(p, repo, rule, now));
      }
    }
  }

  /** A prune that is not stopped by orphans decides the same as with all tag locks known, except
      in a gap, and then under a rule that must delete everything and orphans, that does not ignore
      missing manifests, and without including locked ones. */
  lemma PruneLazyExact(p: Pruner, raw: Repo, rule: RepoRule, now: int, locked: set<string>)
    requires WellKeyed(raw) && Unloaded(raw) && !Reported(WithOrphans(raw), rule)
    ensures var repo := WithOrphans(raw);
            var eager := WithTagLocks(repo, repo.Keys, locked);
            && WellKeyed(repo) && WellKeyed(eager)
            && (LazyDecision(p, repo, rule, now, locked) == EagerDecision(p, repo, rule, now, locked) <==>
                  !LazyGap(p, repo, eager, rule, now))
            && (LazyGap(p, repo, eager, rule, now) ==>
                  rule.mustDeleteEverything && rule.deleteOrphaned && !rule.ignoreMissing && !p.includeLocked)
  {
    var repo := WithOrphans(raw);
    var eager := WithTagLocks(repo, repo.Keys, locked);
    hide Rooted, Kept, Forced, WithOrphans, Fails, WithTagLocks, LazyDecision, EagerDecision, Reported;
    OrphansOnly(raw);
    KeyedAnyway(repo, repo.Keys, locked);
    LazyLocksExact(p, repo, rule, now, locked);
    GapDeletesOrphans(p, raw, eager, rule, now);
  }

  // ----- a repository in each gap

  lemma ListsChild(doc: Document, d: Digest)
    ensures Orphans.ListsBefore(doc, |doc.children|, d) <==> d in doc.Children()
  {
  }

  /** No manifest has a child there, and only m needs anything. */
  ghost predicate Lone(docs: Docs, m: Digest)
  {
    forall d | d in docs ::
      docs[d].Children() !! docs.Keys && (d != m ==> docs[d].Children() == {} && !docs[d].IsReferrer())
  }

  lemma NothingOwned(docs: Docs, m: Digest)
    requires Lone(docs, m)
    ensures forall d | d in docs :: !Orphans.Owned(docs, d)
  {
    hide Document.Children;
    forall d, owner | d in docs && owner in docs ensures !Orphans.Owns(docs, owner, d) {
      ListsChild(docs[owner], d);
    }
  }

  lemma NothingNeeded(docs: Docs, m: Digest)
    requires Lone(docs, m)
    ensures forall d, c | d != m :: !Orphans.Needs(docs, d, c)
  {
    hide Document.Children, Orphans.ListsBefore;
    forall d, c | d != m ensures !Orphans.Needs(docs, d, c) {
      if d in docs {
        ListsChild(docs[d], c);
      }
    }
  }

  /** The only manifest that needs anything lacks a child. */
  lemma SingleOrphan(docs: Docs, m: Digest, x: Digest)
    requires m in docs && x !in docs && x in docs[m].Children() && Lone(docs, m)
    ensures Orphans.OrphanSet(docs) == {m}
  {
    hide Document.Children, Orphans.OrphanSet, Orphans.ListsBefore, Orphans.Owned, Lone;
    Orphans.OrphanSetLeast(docs);
    NothingOwned(docs, m);
    NothingNeeded(docs, m);
    ListsChild(docs[m], x);
    assert Orphans.Needs(docs, m, x);
    assert Orphans.Condemned(docs, Orphans.OrphanSet(docs), m);
    assert Orphans.OrphanClosed(docs, {m});
  }

  lemma MarksOne(raw: Repo, m: Digest, x: Digest)
    requires m in raw && x !in raw && x in raw[m].doc.Children() && Lone(DocsOf(raw), m)
    requires forall d | d in raw :: !raw[d].orphaned && !raw[d].hasOwner
    ensures WithOrphans(raw) == raw[m := raw[m].(orphaned := true)]
  {
    hide Document.Children, Orphans.OrphanSet, Orphans.Owned, Lone;
    var docs := DocsOf(raw);
    SingleOrphan(docs, m, x);
    NothingOwned(docs, m);
  }

  const IMAGE := Document("r", "a", [], 1, Platform("", ""), false, [], None, "", 1, None, [])
  const MISSING := [Descriptor("x", None)]
  const PRUNER := Pruner(3, false, [], None)
  const NOW := 9

  /** Keeps what no rule matches: every image. */
  const KEEPING := RepoRule(Anchored("r"), false, true, true, [], [])
  /** Deletes every image. */
  const DELETING := KEEPING.(untagged := [DELETE], tagged := [TaggedRule(None, DELETE)])

  function Fetched(doc: Document): Manifest
  {
    Manifest(doc, false, false, [], [])
  }

  /** An image the rules keep, and a tagged index that lacks a child. */
  const BROKEN_INDEX := IMAGE.(digest := "b", tags := ["t"], children := MISSING)
  const WITH_INDEX: Repo := map["a" := Fetched(IMAGE), "b" := Fetched(BROKEN_INDEX)]

  /** An image the rules delete, and a young referrer of it that lacks a child. */
  const TAGGED_IMAGE := IMAGE.(tags := ["t"])
  const YOUNG_REFERRER := IMAGE.(digest := "s", updated := 8, subject := Some("a"), children := MISSING)
  const WITH_REFERRER: Repo := map["a" := Fetched(TAGGED_IMAGE), "s" := Fetched(YOUNG_REFERRER)]

  lemma MissingChild()
    ensures BROKEN_INDEX.Children() == {"x"} && YOUNG_REFERRER.Children() == {"x"}
    ensures IMAGE.Children() == {} && TAGGED_IMAGE.Children() == {}
  {
    assert MISSING[0].digest == "x";
    assert BROKEN_INDEX.children[0].digest == "x" && YOUNG_REFERRER.children[0].digest == "x";
  }

  const INDEX_MARKED := WITH_INDEX["b" := Fetched(BROKEN_INDEX).(orphaned := true)]
  const REFERRER_MARKED := WITH_REFERRER["s" := Fetched(YOUNG_REFERRER).(orphaned := true)]

  lemma IndexMarked()
    ensures WellKeyed(WITH_INDEX) && WithOrphans(WITH_INDEX) == INDEX_MARKED
  {
    hide Document.Children, WithOrphans;
    MissingChild();
    assert DocsOf(WITH_INDEX) == map["a" := IMAGE, "b" := BROKEN_INDEX];
    MarksOne(WITH_INDEX, "b", "x");
  }

  lemma ReferrerMarked()
    ensures WellKeyed(WITH_REFERRER) && WithOrphans(WITH_REFERRER) == REFERRER_MARKED
  {
    hide Document.Children, WithOrphans;
    MissingChild();
    assert DocsOf(WITH_REFERRER) == map["a" := TAGGED_IMAGE, "s" := YOUNG_REFERRER];
    MarksOne(WITH_REFERRER, "s", "x");
  }

  /** The marked repositories once the lock on tag "t" is known. */
  const INDEX_LOCKED := INDEX_MARKED["b" := INDEX_MARKED["b"].(lockedTags := ["t"])]
  const REFERRER_LOCKED := REFERRER_MARKED["a" := REFERRER_MARKED["a"].(lockedTags := ["t"])]

  lemma TagLoaded()
    ensures LockedTagsOf([], {"t"}) == [] && LockedTagsOf(["t"], {"t"}) == ["t"]
  {
  }

  lemma IndexLoaded()
    ensures WithTagLocks(INDEX_MARKED, INDEX_MARKED.Keys, {"t"}) == INDEX_LOCKED
  {
    hide LockedTagsOf;
    TagLoaded();
  }

  lemma ReferrerLoaded()
    ensures WithTagLocks(REFERRER_MARKED, REFERRER_MARKED.Keys, {"t"}) == REFERRER_LOCKED
  {
    hide LockedTagsOf;
    TagLoaded();
  }

  lemma IndexKeyed()
    ensures WellKeyed(INDEX_MARKED) && WellKeyed(INDEX_LOCKED)
  {
    assert DocsOf(INDEX_MARKED) == map["a" := IMAGE, "b" := BROKEN_INDEX];
    assert DocsOf(INDEX_LOCKED) == map["a" := IMAGE, "b" := BROKEN_INDEX];
  }

  lemma ReferrerKeyed()
    ensures WellKeyed(REFERRER_MARKED) && WellKeyed(REFERRER_LOCKED)
  {
    assert DocsOf(REFERRER_MARKED) == map["a" := TAGGED_IMAGE, "s" := YOUNG_REFERRER];
    assert DocsOf(REFERRER_LOCKED) == map["a" := TAGGED_IMAGE, "s" := YOUNG_REFERRER];
  }

  /** The image is kept and keeps everything; the index is not looked at. */
  lemma IndexFirst()
    ensures WellKeyed(INDEX_MARKED) && FirstSeeds(PRUNER, INDEX_MARKED, KEEPING, NOW) == {"a"}
  {
    IndexKeyed();
    assert IsKept(PRUNER, INDEX_MARKED, KEEPING, NOW, "a");
    assert !IsKept(PRUNER, INDEX_MARKED, KEEPING, NOW, "b") by {
      hide RulesKeep;
    }
  }

  lemma RootsAlone(repo: Repo, d: Digest)
    requires d in repo && repo[d].doc.Children() == {}
    ensures Reach(Deps(repo), {d}) == {d} && !Broken(repo, d)
  {
    ReachLeast(Deps(repo), {d});
    assert Bounds(Deps(repo), {d}, {d});
  }

  lemma IndexDecided()
    ensures WellKeyed(INDEX_MARKED) && Decision(PRUNER, INDEX_MARKED, KEEPING, NOW) == Some({"a", "b"})
  {
    IndexFirst();
    MissingChild();
    hide FirstSeeds, Reach, Deps, Broken, Kept, Document.Children;
    RootsAlone(INDEX_MARKED, "a");
    assert INDEX_MARKED.Keys == {"a", "b"};
  }

  lemma IndexEager()
    ensures WellKeyed(INDEX_LOCKED) && Decision(PRUNER, INDEX_LOCKED, KEEPING, NOW) == None
  {
    IndexKeyed();
    MissingChild();
    assert IsKept(PRUNER, INDEX_LOCKED, KEEPING, NOW, "b") by {
      hide RulesKeep, Document.Children;
    }
    assert "b" in FirstSeeds(PRUNER, INDEX_LOCKED, KEEPING, NOW);
    hide FirstSeeds, Kept, Document.Children;
    ReachLeast(Deps(INDEX_LOCKED), FirstSeeds(PRUNER, INDEX_LOCKED, KEEPING, NOW));
    hide Reach, Deps;
    assert Broken(INDEX_LOCKED, "b");
  }

  /** Everything is kept already, so the lock on the tag of the broken index is never looked at; had
      it been, its missing child would have failed the decision. */
  lemma FirstGap()
    ensures WellKeyed(WITH_INDEX) && WithOrphans(WITH_INDEX) == INDEX_MARKED && !Reported(INDEX_MARKED, KEEPING)
    ensures WellKeyed(INDEX_MARKED)
    ensures LazyDecision(PRUNER, INDEX_MARKED, KEEPING, NOW, {"t"}) == Some({"a", "b"})
    ensures EagerDecision(PRUNER, INDEX_MARKED, KEEPING, NOW, {"t"}) == None
  {
    hide Decision, LazyDecision, WithTagLocks, WithOrphans;
    IndexMarked();
    IndexDecided();
    LazyLoadsAll(PRUNER, INDEX_MARKED, KEEPING, NOW, {"t"});
    IndexLoaded();
    IndexEager();
  }

  lemma Deletes(repo: Repo, m: Manifest)
    requires m.doc.digest in repo && !m.doc.IsReferrer() && m.doc.tags != []
    ensures !RulesKeep(repo, DELETING, NOW, m)
  {
    assert Criteria(DELETE, m, NOW);
    forall k | 0 <= k < |m.doc.tags| ensures !TagKept(repo, DELETING, NOW, m, k) {
    }
  }

  lemma ReferrerSeeds()
    ensures WellKeyed(REFERRER_MARKED) && FirstSeeds(PRUNER, REFERRER_MARKED, DELETING, NOW) == {}
    ensures "s" in ProtectedReferrers(PRUNER, REFERRER_MARKED, NOW) && !PinnedReferrer(PRUNER, REFERRER_MARKED)
  {
    ReferrerKeyed();
    Deletes(REFERRER_MARKED, REFERRER_MARKED["a"]);
    hide RulesKeep;
  }

  lemma ReferrerDecided()
    ensures WellKeyed(REFERRER_MARKED) && Decision(PRUNER, REFERRER_MARKED, DELETING, NOW) == None
  {
    ReferrerSeeds();
    MissingChild();
    hide FirstSeeds, ProtectedReferrers, PinnedReferrer, Document.Children;
    var seeds := FirstSeeds(PRUNER, REFERRER_MARKED, DELETING, NOW) + ProtectedReferrers(PRUNER, REFERRER_MARKED, NOW);
    ReachNothing(Deps(REFERRER_MARKED));
    ReachLeast(KeepEdges(REFERRER_MARKED, true), seeds);
    hide Reach, Deps, KeepEdges;
    assert "s" in Kept(PRUNER, REFERRER_MARKED, DELETING, NOW);
    assert Broken(REFERRER_MARKED, "s");
  }

  lemma ReferrerEager()
    ensures WellKeyed(REFERRER_LOCKED) && Decision(PRUNER, REFERRER_LOCKED, DELETING, NOW) == Some({"a", "s"})
  {
    ReferrerKeyed();
    MissingChild();
    assert IsKept(PRUNER, REFERRER_LOCKED, DELETING, NOW, "a") by {
      hide RulesKeep, Document.Children;
    }
    assert !IsKept(PRUNER, REFERRER_LOCKED, DELETING, NOW, "s") by {
      hide RulesKeep, Document.Children;
    }
    assert FirstSeeds(PRUNER, REFERRER_LOCKED, DELETING, NOW) == {"a"} by {
      hide IsKept, Document.Children;
    }
    hide FirstSeeds, Reach, Deps, Broken, Kept, Document.Children;
    RootsAlone(REFERRER_LOCKED, "a");
    assert REFERRER_LOCKED.Keys == {"a", "s"};
  }

  /** The first decision fails on the missing child of the young referrer; had the lock on the tag of
      its subject been known, everything would have been kept before the referrer was looked at. */
  lemma SecondGap()
    ensures WellKeyed(WITH_REFERRER) && WithOrphans(WITH_REFERRER) == REFERRER_MARKED &&
            !Reported(REFERRER_MARKED, DELETING)
    ensures WellKeyed(REFERRER_MARKED)
    ensures LazyDecision(PRUNER, REFERRER_MARKED, DELETING, NOW, {"t"}) == None
    ensures EagerDecision(PRUNER, REFERRER_MARKED, DELETING, NOW, {"t"}) == Some({"a", "s"})
  {
    hide Decision, LazyDecision, WithTagLocks, WithOrphans;
    ReferrerMarked();
    ReferrerDecided();
    LazyLoadsAll(PRUNER, REFERRER_MARKED, DELETING, NOW, {"t"});
    ReferrerLoaded();
    ReferrerEager();
  }
}
