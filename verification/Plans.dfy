/** Counting what a prune did, and executing a reviewed plan (PruneStats in internal/pruner/pruner.go,
    Execute and Summary in internal/pruner/plan.go). */
module Plans {
  import opened Manifests
  import opened Sums
  import opened BlobBytes
  import opened Statistics

  datatype PruneStats = PruneStats(
    skipped: nat,
    repositories: nat,
    keptRepositories: nat,
    seenManifests: nat,
    keptManifests: nat,
    deletedManifests: nat,
    seenBytes: uint64,
    keptBytes: uint64,
    deletedBytes: uint64)

  const ZERO := PruneStats(0, 0, 0, 0, 0, 0, 0, 0, 0)

  /** Every manifest and every byte seen is either kept or deleted. */
  predicate Balanced(s: PruneStats)
  {
    && s.seenManifests == s.keptManifests + s.deletedManifests
    && s.seenBytes == Wrapped(s.keptBytes, s.deletedBytes)
    && s.keptRepositories <= s.repositories
  }

  function Plus(s: PruneStats, o: PruneStats): PruneStats
  {
    PruneStats(s.skipped + o.skipped, s.repositories + o.repositories, s.keptRepositories + o.keptRepositories,
               s.seenManifests + o.seenManifests, s.keptManifests + o.keptManifests,
               s.deletedManifests + o.deletedManifests,
               Wrapped(s.seenBytes, o.seenBytes), Wrapped(s.keptBytes, o.keptBytes),
               Wrapped(s.deletedBytes, o.deletedBytes))
  }

  lemma ModSum(x: nat, y: nat)
    ensures (x % 0x1_0000_0000_0000_0000 + y % 0x1_0000_0000_0000_0000) % 0x1_0000_0000_0000_0000 ==
            (x + y) % 0x1_0000_0000_0000_0000
  {
  }

  lemma WrappedSum(x: nat, y: nat)
    ensures Wrapped(x % U64, y % U64) == (x + y) % U64
  {
    ModSum(x, y);
  }

  lemma WrappedSwap(a: nat, b: nat, c: nat, d: nat)
    ensures Wrapped(Wrapped(a, b), Wrapped(c, d)) == Wrapped(Wrapped(a, c), Wrapped(b, d))
  {
    WrappedSum(a + b, c + d);
    WrappedSum(a + c, b + d);
    assert a + b + (c + d) == a + c + (b + d);
  }

  lemma FitDifference(seen: nat, kept: nat)
    requires kept <= seen < U64
    ensures seen % U64 == seen && kept % U64 == kept && (seen - kept) % U64 == seen - kept
    ensures Wrapped(kept, seen - kept) == seen
  {
  }

  /** Totals stay balanced, even when their bytes wrap. */
  lemma PlusBalanced(s: PruneStats, o: PruneStats)
    requires Balanced(s) && Balanced(o)
    ensures Balanced(Plus(s, o))
  {
    WrappedSwap(s.keptBytes, s.deletedBytes, o.keptBytes, o.deletedBytes);
  }

  /** A running total. */
  class Total {
    var stats: PruneStats

    constructor ()
      ensures stats == ZERO
    {
      stats := ZERO;
    }

    method Add(o: PruneStats)
      modifies this
      ensures stats == Plus(old(stats), o)
      ensures stats.repositories == old(stats).repositories + o.repositories
      ensures stats.keptRepositories == old(stats).keptRepositories + o.keptRepositories
      ensures stats.skipped == old(stats).skipped + o.skipped
      ensures stats.seenManifests == old(stats).seenManifests + o.seenManifests
      ensures stats.keptManifests == old(stats).keptManifests + o.keptManifests
      ensures stats.deletedManifests == old(stats).deletedManifests + o.deletedManifests
      ensures stats.seenBytes == (old(stats).seenBytes + o.seenBytes) % 0x1_0000_0000_0000_0000
      ensures stats.keptBytes == (old(stats).keptBytes + o.keptBytes) % 0x1_0000_0000_0000_0000
      ensures stats.deletedBytes == (old(stats).deletedBytes + o.deletedBytes) % 0x1_0000_0000_0000_0000
      ensures Balanced(old(stats)) && Balanced(o) ==> Balanced(stats)
    {
      if Balanced(stats) && Balanced(o) {
        PlusBalanced(stats, o);
      }
      stats := PruneStats(stats.skipped + o.skipped, stats.repositories + o.repositories,
                          stats.keptRepositories + o.keptRepositories, stats.seenManifests + o.seenManifests,
                          stats.keptManifests + o.keptManifests, stats.deletedManifests + o.deletedManifests,
                          Wrapped(stats.seenBytes, o.seenBytes), Wrapped(stats.keptBytes, o.keptBytes),
                          Wrapped(stats.deletedBytes, o.deletedBytes));
    }
  }

  // ----- one repository

  /** An inspected repository: different manifests, of consistent sizes that fit 64 bits. */
  ghost predicate Validated(docs: Docs, all: seq<Document>)
  {
    Consistent(docs) && GrandTotal(docs) < U64 && Sublist(docs, all) && DigestSet(all) == docs.Keys
  }

  function Without(all: seq<Document>, removed: set<Digest>): seq<Document>
  {
    if all == [] then [] else
    var last := all[|all| - 1];
    Without(all[..|all| - 1], removed) + if last.digest in removed then [] else [last]
  }

  lemma {:induction false} WithoutFacts(docs: Docs, all: seq<Document>, removed: set<Digest>)
    requires Sublist(docs, all)
    ensures Sublist(docs, Without(all, removed)) && DigestSet(Without(all, removed)) == DigestSet(all) - removed
    ensures |Without(all, removed)| + |DigestSet(all) * removed| == |all|
  {
    hide *;
    if all == [] {
      WithoutNone(removed);
    } else {
      var last := |all| - 1;
      NewDigest(docs, all);
      WithoutFacts(docs, all[..last], removed);
      DigestSetStep(all);
      WithoutStep(docs, all, removed);
    }
  }

  lemma WithoutNone(removed: set<Digest>)
    ensures Without([], removed) == [] && DigestSet([]) == {} && forall docs :: Sublist(docs, [])
  {
  }

  lemma WithoutStep(docs: Docs, all: seq<Document>, removed: set<Digest>)
    requires all != [] && Sublist(docs, all)
    requires var rest := all[..|all| - 1];
             && Sublist(docs, Without(rest, removed)) && DigestSet(Without(rest, removed)) == DigestSet(rest) - removed
             && |Without(rest, removed)| + |DigestSet(rest) * removed| == |rest|
             && DigestSet(all) == DigestSet(rest) + {all[|all| - 1].digest} && all[|all| - 1].digest !in DigestSet(rest)
    ensures Sublist(docs, Without(all, removed)) && DigestSet(Without(all, removed)) == DigestSet(all) - removed
    ensures |Without(all, removed)| + |DigestSet(all) * removed| == |all|
  {
    hide *;
    var last := all[|all| - 1];
    var rest, kept := DigestSet(all[..|all| - 1]), Without(all[..|all| - 1], removed);
    WithoutLast(docs, all, removed);
    if last.digest in removed {
      assert (rest + {last.digest}) * removed == rest * removed + {last.digest};
      assert |rest * removed + {last.digest}| == |rest * removed| + 1;
    } else {
      assert (rest + {last.digest}) * removed == rest * removed;
      SublistAppend(docs, kept, last);
    }
  }

  lemma WithoutLast(docs: Docs, all: seq<Document>, removed: set<Digest>)
    requires all != [] && Sublist(docs, all)
    ensures var last, kept := all[|all| - 1], Without(all[..|all| - 1], removed);
            && last.digest in docs && docs[last.digest] == last
            && Without(all, removed) == if last.digest in removed then kept else kept + [last]
  {
  }

  lemma SublistAppend(docs: Docs, list: seq<Document>, m: Document)
    requires Sublist(docs, list) && m.digest in docs && docs[m.digest] == m && m.digest !in DigestSet(list)
    ensures Sublist(docs, list + [m]) && DigestSet(list + [m]) == DigestSet(list) + {m.digest}
  {
    DigestSetStep(list + [m]);
    assert (list + [m])[..|list|] == list;
    assert forall i | 0 <= i < |list| :: list[i].digest in DigestSet(list);
  }

  /** What deleting these manifests of the repository counts as. */
  ghost function Outcome(docs: Docs, all: seq<Document>, removed: set<Digest>, kept: bool, failed: bool): PruneStats
  {
    var seenBytes, keptBytes := UniqueBytes(docs, docs.Keys), UniqueBytes(docs, docs.Keys - removed);
    PruneStats(if failed then 1 else 0, 1, if kept then 1 else 0,
               |all|, |Without(all, removed)|, |removed|,
               seenBytes % U64, keptBytes % U64, (seenBytes - keptBytes) % U64)
  }

  /** The counts of one repository balance exactly, and the bytes counted as deleted are those of
      the blobs no remaining manifest references. */
  lemma OutcomeExact(docs: Docs, all: seq<Document>, removed: set<Digest>, kept: bool, failed: bool)
    requires Validated(docs, all) && removed <= docs.Keys
    ensures var s := Outcome(docs, all, removed, kept, failed);
            && Balanced(s) && s.seenBytes == s.keptBytes + s.deletedBytes
            && s.deletedBytes ==
               Sum(NamedIn(docs, docs.Keys) - NamedIn(docs, docs.Keys - removed), SizeIn(docs)) +
               Sum(removed, Unnamed(docs))
            && s.deletedManifests == |removed|
  {
    hide *;
    ValidatedMeans(docs, all);
    FreedBytes(docs, docs.Keys, docs.Keys - removed);
    assert docs.Keys - (docs.Keys - removed) == removed;
    WithoutFacts(docs, all, removed);
    assert docs.Keys * removed == removed;
    FitsBytes(docs, all);
    FitDifference(UniqueBytes(docs, docs.Keys), UniqueBytes(docs, docs.Keys - removed));
    OutcomeMeans(docs, all, removed, kept, failed);
  }

  lemma ValidatedMeans(docs: Docs, all: seq<Document>)
    requires Validated(docs, all)
    ensures Consistent(docs) && GrandTotal(docs) < U64 && Sublist(docs, all) && DigestSet(all) == docs.Keys
  {
  }

  lemma OutcomeMeans(docs: Docs, all: seq<Document>, removed: set<Digest>, kept: bool, failed: bool)
    ensures var s := Outcome(docs, all, removed, kept, failed);
            var seenBytes, keptBytes := UniqueBytes(docs, docs.Keys), UniqueBytes(docs, docs.Keys - removed);
            && s.repositories == 1 && s.keptRepositories == (if kept then 1 else 0)
            && s.skipped == (if failed then 1 else 0)
            && s.seenManifests == |all| && s.keptManifests == |Without(all, removed)| && s.deletedManifests == |removed|
            && s.seenBytes == seenBytes % U64 && s.keptBytes == keptBytes % U64
            && s.deletedBytes == (seenBytes - keptBytes) % U64
            && (s.seenManifests == s.keptManifests + s.deletedManifests ==>
                  s.seenBytes == Wrapped(s.keptBytes, s.deletedBytes) ==> Balanced(s))
  {
    hide UniqueBytes, Without, Wrapped;
  }

  method Remaining(all: seq<Document>, removed: set<Digest>) returns (remaining: seq<Document>)
    ensures remaining == Without(all, removed)
  {
    remaining := [];
    var i := 0;
    while i < |all|
      invariant i <= |all| && remaining == Without(all[..i], removed)
    {
      assert all[..i + 1][..i] == all[..i];
      if all[i].digest !in removed {
        remaining := remaining + [all[i]];
      }
      i := i + 1;
    }
    assert all[..i] == all;
  }

  /** Counts the confirmed deletions of one repository, all or some of those asked for. */
  method CountOutcome(ghost docs: Docs, all: seq<Document>, seenBytes: uint64, confirmed: seq<Digest>, kept: bool,
                      failed: bool)
    returns (s: PruneStats)
    requires Validated(docs, all) && seenBytes == UniqueBytes(docs, docs.Keys)
    requires Distinct(confirmed) && Elements(confirmed) <= docs.Keys
    ensures s == Outcome(docs, all, Elements(confirmed), kept, failed) && Balanced(s)
  {
    hide *;
    var removed := set d | d in confirmed;
    assert removed == Elements(confirmed);
    DistinctSize(confirmed);
    var remaining := Remaining(all, removed);
    ValidatedMeans(docs, all);
    WithoutFacts(docs, all, removed);
    var keptBytes, total := CalculateStats(remaining, docs);
    OutcomeExact(docs, all, removed, kept, failed);
    OutcomeMeans(docs, all, removed, kept, failed);
    FreedBytes(docs, docs.Keys, docs.Keys - removed);
    FitDifference(seenBytes, keptBytes);
    s := PruneStats(if failed then 1 else 0, 1, if kept then 1 else 0,
                    |all|, |remaining|, |confirmed|, seenBytes, keptBytes, (seenBytes - keptBytes) % U64);
  }
}
