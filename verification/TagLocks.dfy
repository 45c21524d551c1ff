/** Loading tag locks (LoadTagLocks and lockedTagsOf in internal/registry/lock.go). */
module TagLocks {
  import opened Manifests
  import opened Sums

  function LockedTagsOf(tags: seq<string>, locked: set<string>): seq<string>
  {
    if tags == [] then [] else
    LockedTagsOf(tags[..|tags| - 1], locked) + if tags[|tags| - 1] in locked then [tags[|tags| - 1]] else []
  }

  method FilterLocked(tags: seq<string>, locked: set<string>) returns (r: seq<string>)
    ensures r == LockedTagsOf(tags, locked)
  {
    r := [];
    var i := 0;
    while i < |tags|
      invariant i <= |tags| && r == LockedTagsOf(tags[..i], locked)
    {
      assert tags[..i + 1][..i] == tags[..i];
      if tags[i] in locked {
        r := r + [tags[i]];
      }
      i := i + 1;
    }
    assert tags[..i] == tags;
  }

  /** A manifest counts as locked by its tags exactly when one of them is locked. */
  lemma {:induction false} LockedTagsExact(tags: seq<string>, locked: set<string>)
    ensures forall t :: t in LockedTagsOf(tags, locked) <==> t in tags && t in locked
    ensures LockedTagsOf(tags, locked) == [] <==> forall t | t in tags :: t !in locked
  {
    if tags != [] {
      var last := |tags| - 1;
      LockedTagsExact(tags[..last], locked);
      assert tags == tags[..last] + [tags[last]];
    }
  }

  /** The repository once the tag locks of the candidates are known. */
  function WithTagLocks(repo: Repo, candidates: set<Digest>, locked: set<string>): Repo
  {
    map d | d in repo ::
      if d in candidates then repo[d].(lockedTags := LockedTagsOf(repo[d].doc.tags, locked)) else repo[d]
  }

  /** What listing the tags yields: no such operation on this registry, the locked tags, a
      repository that is gone, or an error. */
  datatype TagListing = Unsupported | Listed(locked: set<string>) | Gone | Refused

  /** How a lookup of tag locks turns out: it may be cancelled before it starts, the name of the
      repository may be invalid, and the listing yields something. */
  datatype TagLookup = TagLookup(cancelled: bool, validName: bool, listing: TagListing)

  /** Nothing in the list is tagged, so there is nothing to look up. */
  ghost predicate Untagged(entries: Entries, candidates: seq<Digest>)
  {
    forall i | 0 <= i < |candidates| :: candidates[i] in entries && entries[candidates[i]].doc.tags == []
  }

  ghost predicate Loads(entries: Entries, candidates: seq<Digest>, lookup: TagLookup)
  {
    !lookup.cancelled && lookup.validName && lookup.listing.Listed? && !Untagged(entries, candidates)
  }

  ghost predicate LoadFails(entries: Entries, candidates: seq<Digest>, lookup: TagLookup)
  {
    || lookup.cancelled
    || (!lookup.listing.Unsupported? && (!lookup.validName || lookup.listing.Refused?) &&
        !Untagged(entries, candidates))
  }

  /** Records the locked tags of the candidates in place, listing the tags only when it has to, and
      only of a repository with a valid name. */
  method LoadTagLocks(entries: Entries, candidates: seq<Digest>, lookup: TagLookup) returns (ok: bool)
    requires Separate(entries) && forall i | 0 <= i < |candidates| :: candidates[i] in entries
    modifies entries.Values`lockedTags
    ensures ok <==> !LoadFails(entries, candidates, lookup)
    ensures View(entries) ==
      if Loads(entries, candidates, lookup)
      then WithTagLocks(old(View(entries)), Elements(candidates), lookup.listing.locked)
      else old(View(entries))
  {
    if lookup.cancelled {
      return false;
    }
    var tagged := exists i | 0 <= i < |candidates| :: |entries[candidates[i]].doc.tags| > 0;
    if lookup.listing.Unsupported? || !tagged {
      return true;
    }
    if !lookup.validName {
      return false;
    }
    match lookup.listing
    case Gone => return true;
    case Refused => return false;
    case Listed(locked) =>
      LoadAll(entries, candidates, locked);
      return true;
  }

  method LoadAll(entries: Entries, candidates: seq<Digest>, locked: set<string>)
    requires Separate(entries) && forall i | 0 <= i < |candidates| :: candidates[i] in entries
    modifies entries.Values`lockedTags
    ensures View(entries) == WithTagLocks(old(View(entries)), Elements(candidates), locked)
  {
    hide View, WithTagLocks, LockedTagsOf, Separate;
    ghost var before := View(entries);
    NothingLoaded(before, locked);
    ViewKeys(entries);
    var i := 0;
    assert Elements(candidates[..0]) == {};
    while i < |candidates|
      invariant i <= |candidates|
      invariant View(entries) == WithTagLocks(before, Elements(candidates[..i]), locked)
    {
      var d := candidates[i];
      assert Elements(candidates[..i + 1]) == Elements(candidates[..i]) + {d} by {
        assert candidates[..i + 1] == candidates[..i] + [d];
      }
      ViewAt(entries, d);
      LoadedStep(before, Elements(candidates[..i]), locked, d);
      var tags := FilterLocked(entries[d].doc.tags, locked);
      SetLocks(entries, d, tags);
      i := i + 1;
    }
    assert candidates[..i] == candidates;
  }

  method SetLocks(entries: Entries, d: Digest, tags: seq<string>)
    requires Separate(entries) && d in entries
    modifies entries.Values`lockedTags
    ensures View(entries) == old(View(entries))[d := old(entries[d].Get()).(lockedTags := tags)]
  {
    entries[d].lockedTags := tags;
  }

  lemma ViewKeys(entries: Entries)
    ensures View(entries).Keys == entries.Keys
  {
  }

  lemma ViewAt(entries: Entries, d: Digest)
    requires d in entries
    ensures d in View(entries) && View(entries)[d] == entries[d].Get()
  {
  }

  lemma NothingLoaded(repo: Repo, locked: set<string>)
    ensures WithTagLocks(repo, Elements([]), locked) == repo
  {
  }

  lemma LoadedStep(repo: Repo, loaded: set<Digest>, locked: set<string>, d: Digest)
    requires d in repo
    ensures var partly := WithTagLocks(repo, loaded, locked);
            && d in partly && partly[d].doc == repo[d].doc
            && WithTagLocks(repo, loaded + {d}, locked) ==
               partly[d := partly[d].(lockedTags := LockedTagsOf(repo[d].doc.tags, locked))]
  {
  }
}
