/** Orphan marking (internal/pruner/orphan.go). */
module Orphans {
  import opened Manifests
  import opened Sums

  /** One of the first j index entries is d. */
  ghost predicate ListsBefore(doc: Document, j: nat, d: Digest)
    requires j <= |doc.children|
  {
    exists i | 0 <= i < j :: doc.children[i].digest == d
  }

  ghost predicate Owns(docs: Docs, owner: Digest, d: Digest)
  {
    owner in docs && ListsBefore(docs[owner], |docs[owner].children|, d)
  }

  ghost predicate Owned(docs: Docs, d: Digest)
  {
    exists owner :: Owns(docs, owner, d)
  }

  /** What a manifest needs: its children and its subject. */
  ghost predicate Needs(docs: Docs, m: Digest, d: Digest)
  {
    m in docs && (ListsBefore(docs[m], |docs[m].children|, d) || (docs[m].IsReferrer() && d == docs[m].SubjectDigest()))
  }

  /** By the fields of the document: what it lists, and what it refers to. */
  lemma NeedsExact(docs: Docs, m: Digest, d: Digest)
    ensures Needs(docs, m, d) <==> m in docs && (HasChild(docs[m], d) || Refers(docs[m], d))
    ensures Owns(docs, m, d) <==> m in docs && HasChild(docs[m], d)
  {
    if m in docs {
      RefersExact(docs[m]);
    }
  }

  ghost predicate Incomplete(docs: Docs, m: Digest)
  {
    exists d :: Needs(docs, m, d) && d !in docs
  }

  /** The three reasons to flag a manifest, given those already flagged: something it needs
      is missing; something it needs is flagged; or it is untagged and every index listing
      it is flagged. */
  ghost predicate Condemned(docs: Docs, flagged: set<Digest>, m: Digest)
  {
    m in docs && (
      || Incomplete(docs, m)
      || (exists d :: Needs(docs, m, d) && d in flagged)
      || (docs[m].tags == [] && Owned(docs, m) && forall owner | Owns(docs, owner, m) :: owner in flagged))
  }

  ghost predicate OrphanClosed(docs: Docs, flagged: set<Digest>)
  {
    forall m | Condemned(docs, flagged, m) :: m in flagged
  }

  /** The least set closed under the three reasons. */
  ghost function OrphanSet(docs: Docs): set<Digest>
  {
    set m | m in docs && forall flagged | OrphanClosed(docs, flagged) :: m in flagged
  }

  lemma OrphanSetLeast(docs: Docs)
    ensures OrphanClosed(docs, OrphanSet(docs))
    ensures forall flagged | OrphanClosed(docs, flagged) :: OrphanSet(docs) <= flagged
  {
    var least := OrphanSet(docs);
    forall m, flagged | Condemned(docs, least, m) && OrphanClosed(docs, flagged)
      ensures m in flagged
    {
      assert least <= flagged;
      assert Condemned(docs, flagged, m);
    }
  }

  // ----- reference counts

  /** How often the first j index entries are d. */
  ghost function EntryCount(doc: Document, j: nat, d: Digest): nat
    requires j <= |doc.children|
  {
    if j == 0 then 0 else EntryCount(doc, j - 1, d) + if doc.children[j - 1].digest == d then 1 else 0
  }

  lemma {:induction false} EntryCountPositive(doc: Document, j: nat, d: Digest)
    requires j <= |doc.children|
    ensures EntryCount(doc, j, d) > 0 <==> ListsBefore(doc, j, d)
  {
    if j > 0 {
      EntryCountPositive(doc, j - 1, d);
    }
  }

  lemma {:induction false} EntryCountGrows(doc: Document, j: nat, k: nat, d: Digest)
    requires j <= k <= |doc.children|
    ensures EntryCount(doc, j, d) <= EntryCount(doc, k, d)
  {
    if j < k {
      EntryCountGrows(doc, j, k - 1, d);
    }
  }

  ghost function Weight(docs: Docs, d: Digest): Digest -> nat
  {
    m => if m in docs then EntryCount(docs[m], |docs[m].children|, d) else 0
  }

  /** How often the indexes in s mention d, repeats counted. */
  ghost function Mentions(docs: Docs, s: set<Digest>, d: Digest): nat
  {
    Sum(s, Weight(docs, d))
  }

  lemma MentionsAdd(docs: Docs, s: set<Digest>, m: Digest, d: Digest)
    requires m in docs && m !in s
    ensures Mentions(docs, s + {m}, d) == Mentions(docs, s, d) + EntryCount(docs[m], |docs[m].children|, d)
  {
    SumAdd(s, Weight(docs, d), m);
  }

  lemma {:induction false} MentionsOwned(docs: Docs, s: set<Digest>, d: Digest)
    requires s <= docs.Keys
    ensures Mentions(docs, s, d) > 0 <==> exists owner | owner in s :: Owns(docs, owner, d)
  {
    if s != {} {
      var m :| m in s;
      SumRemove(s, Weight(docs, d), m);
      MentionsOwned(docs, s - {m}, d);
      EntryCountPositive(docs[m], |docs[m].children|, d);
    }
  }

  /** Every mention counted means exactly that every owner is counted. */
  lemma AllCounted(docs: Docs, s: set<Digest>, d: Digest)
    requires s <= docs.Keys
    ensures Mentions(docs, s, d) <= Mentions(docs, docs.Keys, d)
    ensures Mentions(docs, s, d) == Mentions(docs, docs.Keys, d) <==> forall owner | Owns(docs, owner, d) :: owner in s
  {
    SumSubset(s, docs.Keys, Weight(docs, d));
    MentionsOwned(docs, docs.Keys - s, d);
  }

  // ----- the pass

  ghost function FlagSet(entries: Entries): set<Digest>
    reads entries.Values`orphaned
  {
    set d | d in entries && entries[d].orphaned
  }

  ghost function OwnedSet(entries: Entries): set<Digest>
    reads entries.Values`hasOwner
  {
    set d | d in entries && entries[d].hasOwner
  }

  /** Flags are set exactly on the queued manifests, each queued once. */
  ghost predicate Queued(entries: Entries, queue: seq<Digest>)
    reads entries.Values`orphaned
  {
    Distinct(queue) && Elements(queue) == FlagSet(entries)
  }

  method Mark(entries: Entries, d: Digest, queue: seq<Digest>) returns (queued: seq<Digest>)
    requires d in entries && Separate(entries) && Queued(entries, queue)
    modifies entries.Values`orphaned
    ensures Queued(entries, queued) && queue <= queued
    ensures Elements(queued) == Elements(queue) + {d}
  {
    queued := queue;
    if !entries[d].orphaned {
      assert d !in Elements(queue);
      entries[d].orphaned := true;
      queued := queue + [d];
      assert FlagSet(entries) == old(FlagSet(entries)) + {d};
    }
  }

  method MarkAll(entries: Entries, marked: seq<Digest>, queue: seq<Digest>) returns (queue': seq<Digest>)
    requires Separate(entries) && Queued(entries, queue)
    requires Elements(marked) <= entries.Keys
    modifies entries.Values`orphaned
    ensures Queued(entries, queue') && queue <= queue'
    ensures Elements(queue') == Elements(queue) + Elements(marked)
  {
    queue' := queue;
    var i := 0;
    while i < |marked|
      invariant i <= |marked|
      invariant Queued(entries, queue') && queue <= queue'
      invariant Elements(queue') == Elements(queue) + Elements(marked[..i])
    {
      queue' := Mark(entries, marked[i], queue');
      assert marked[..i + 1] == marked[..i] + [marked[i]];
      i := i + 1;
    }
    assert marked[..i] == marked;
  }

  method SetOwned(entries: Entries, d: Digest)
    requires d in entries && Separate(entries)
    modifies entries.Values`hasOwner
    ensures OwnedSet(entries) == old(OwnedSet(entries)) + {d}
  {
    entries[d].hasOwner := true;
  }

  method Reset(entries: Entries)
    requires Separate(entries)
    modifies entries.Values`orphaned, entries.Values`hasOwner
    ensures FlagSet(entries) == {} && OwnedSet(entries) == {}
  {
    var todo := entries.Keys;
    while todo != {}
      invariant todo <= entries.Keys
      invariant forall d | d in entries && d !in todo :: !entries[d].orphaned && !entries[d].hasOwner
      decreases todo
    {
      var d :| d in todo;
      entries[d].orphaned, entries[d].hasOwner := false, false;
      todo := todo - {d};
    }
  }

  function At(counts: map<Digest, nat>, d: Digest): nat
  {
    if d in counts then counts[d] else 0
  }

  /** What the first walk has gathered: owner counts, back links, listed and flagged manifests. */
  datatype Tally = Tally(owners: map<Digest, nat>, parents: map<Digest, seq<Digest>>,
                         owned: set<Digest>, flagged: set<Digest>)
  {
    ghost function Link(docs: Docs, m: Digest, d: Digest): Tally
    {
      if d in docs then this.(parents := parents[d := ListedAt(parents, d) + [m]]) else this.(flagged := flagged + {m})
    }

    ghost function Child(docs: Docs, m: Digest, d: Digest): Tally
    {
      if d in docs then Link(docs, m, d).(owners := owners[d := At(owners, d) + 1], owned := owned + {d})
      else Link(docs, m, d)
    }

    ghost function Children(docs: Docs, m: Digest, j: nat): Tally
      requires m in docs && j <= |docs[m].children|
    {
      if j == 0 then this else Children(docs, m, j - 1).Child(docs, m, docs[m].children[j - 1].digest)
    }

    ghost function Manifest(docs: Docs, m: Digest): Tally
      requires m in docs
    {
      var t := Children(docs, m, |docs[m].children|);
      if docs[m].IsReferrer() then t.Link(docs, m, docs[m].SubjectDigest()) else t
    }
  }

  /** Walks one manifest: counts and links what it needs, and flags it when something is missing. */
  method Record(entries: Entries, ghost docs: Docs, m: Digest, owners: map<Digest, nat>,
                parents: map<Digest, seq<Digest>>, queue: seq<Digest>)
    returns (owners': map<Digest, nat>, parents': map<Digest, seq<Digest>>, queue': seq<Digest>)
    requires docs == EntryDocs(entries) && m in entries
    requires Separate(entries) && Queued(entries, queue)
    modifies entries.Values`orphaned, entries.Values`hasOwner
    ensures Queued(entries, queue')
    ensures Tally(owners', parents', OwnedSet(entries), Elements(queue')) ==
            Tally(owners, parents, old(OwnedSet(entries)), Elements(queue)).Manifest(docs, m)
  {
    hide Queued, Separate, FlagSet, OwnedSet, Document.Children, Document.Entries;
    owners', parents', queue' := owners, parents, queue;
    var doc := entries[m].doc;
    ghost var start := Tally(owners, parents, OwnedSet(entries), Elements(queue));
    var j := 0;
    while j < |doc.children|
      invariant j <= |doc.children|
      invariant Queued(entries, queue')
      invariant Tally(owners', parents', OwnedSet(entries), Elements(queue')) == start.Children(docs, m, j)
    {
      var digest := doc.children[j].digest;
      if digest in entries {
        SetOwned(entries, digest);
        owners' := owners'[digest := At(owners', digest) + 1];
        parents' := parents'[digest := ListedAt(parents', digest) + [m]];
      } else {
        queue' := Mark(entries, m, queue');
      }
      j := j + 1;
    }
    if doc.IsReferrer() {
      var digest := doc.SubjectDigest();
      if digest in entries {
        parents' := parents'[digest := ListedAt(parents', digest) + [m]];
      } else {
        queue' := Mark(entries, m, queue');
      }
    }
  }

  /** The second walk: broken reference counts and flags, one popped manifest at a time. */
  datatype Wave = Wave(broken: map<Digest, nat>, flagged: set<Digest>)
  {
    ghost function Child(docs: Docs, owners: map<Digest, nat>, d: Digest): Wave
    {
      var broken' := broken[d := At(broken, d) + 1];
      Wave(broken', flagged + if d in docs && docs[d].tags == [] && At(broken', d) == At(owners, d) then {d} else {})
    }

    ghost function Children(docs: Docs, owners: map<Digest, nat>, m: Digest, j: nat): Wave
      requires m in docs && j <= |docs[m].children|
    {
      if j == 0 then this else Children(docs, owners, m, j - 1).Child(docs, owners, docs[m].children[j - 1].digest)
    }
  }

  /** Pops one flagged manifest: flags what needs it and the debris it leaves. */
  method Spread(entries: Entries, ghost docs: Docs, m: Digest, owners: map<Digest, nat>,
                parents: map<Digest, seq<Digest>>,
                broken: map<Digest, nat>, queue: seq<Digest>)
    returns (broken': map<Digest, nat>, queue': seq<Digest>)
    requires docs == EntryDocs(entries) && m in entries
    requires Separate(entries) && Queued(entries, queue)
    requires Elements(ListedAt(parents, m)) <= entries.Keys
    modifies entries.Values`orphaned
    ensures Queued(entries, queue') && queue <= queue'
    ensures Wave(broken', Elements(queue')) ==
            Wave(broken, Elements(queue) + Elements(ListedAt(parents, m))).Children(docs, owners, m, |docs[m].children|)
  {
    hide Queued, FlagSet, Separate;
    queue' := MarkAll(entries, ListedAt(parents, m), queue);
    broken' := broken;
    ghost var start := Wave(broken, Elements(queue'));
    var children := entries[m].doc.children;
    var j := 0;
    while j < |children|
      invariant j <= |children|
      invariant Queued(entries, queue') && queue <= queue'
      invariant Wave(broken', Elements(queue')) == start.Children(docs, owners, m, j)
    {
      var digest := children[j].digest;
      broken' := broken'[digest := At(broken', digest) + 1];
      if digest in entries && |entries[digest].doc.tags| == 0 && At(broken', digest) == At(owners, digest) {
        queue' := Mark(entries, digest, queue');
      }
      j := j + 1;
    }
  }

  // ----- what the first walk gathers

  ghost predicate OwnersTallied(docs: Docs, done: set<Digest>, owners: map<Digest, nat>)
  {
    forall d {:trigger At(owners, d)} | d in docs :: At(owners, d) == Mentions(docs, done, d)
  }

  ghost predicate ParentsTallied(docs: Docs, done: set<Digest>, parents: map<Digest, seq<Digest>>)
  {
    forall p, d {:trigger p in ListedAt(parents, d)} | d in docs ::
        p in ListedAt(parents, d) <==> p in done && Needs(docs, p, d)
  }

  ghost predicate FlagsTallied(docs: Docs, done: set<Digest>, flagged: set<Digest>)
  {
    forall d {:trigger d in flagged} :: d in flagged <==> d in done && Incomplete(docs, d)
  }

  ghost predicate OwnedTallied(docs: Docs, done: set<Digest>, owned: set<Digest>)
  {
    forall d {:trigger d in owned} :: d in owned <==> d in docs && Mentions(docs, done, d) > 0
  }

  /** The tally of the manifests in done. */
  ghost predicate Tallied(docs: Docs, done: set<Digest>, t: Tally)
  {
    && OwnersTallied(docs, done, t.owners)
    && ParentsTallied(docs, done, t.parents)
    && FlagsTallied(docs, done, t.flagged)
    && OwnedTallied(docs, done, t.owned)
  }

  lemma {:induction false} ChildrenCounted(t: Tally, docs: Docs, m: Digest, j: nat, d: Digest)
    requires m in docs && j <= |docs[m].children|
    ensures d in docs ==> At(t.Children(docs, m, j).owners, d) == At(t.owners, d) + EntryCount(docs[m], j, d)
    ensures d in t.Children(docs, m, j).owned <==> d in t.owned || (d in docs && EntryCount(docs[m], j, d) > 0)
  {
    if j > 0 {
      ChildrenCounted(t, docs, m, j - 1, d);
    }
  }

  lemma {:induction false} ChildrenLinked(t: Tally, docs: Docs, m: Digest, j: nat, p: Digest, d: Digest)
    requires m in docs && j <= |docs[m].children| && d in docs
    ensures p in ListedAt(t.Children(docs, m, j).parents, d) <==>
            p in ListedAt(t.parents, d) || (p == m && ListsBefore(docs[m], j, d))
  {
    if j > 0 {
      ChildrenLinked(t, docs, m, j - 1, p, d);
    }
  }

  lemma {:induction false} ChildrenFlagged(t: Tally, docs: Docs, m: Digest, j: nat)
    requires m in docs && j <= |docs[m].children|
    ensures t.Children(docs, m, j).flagged ==
            t.flagged + if exists i | 0 <= i < j :: docs[m].children[i].digest !in docs then {m} else {}
  {
    if j > 0 {
      ChildrenFlagged(t, docs, m, j - 1);
    }
  }

  lemma IncompleteSplit(docs: Docs, m: Digest)
    requires m in docs
    ensures Incomplete(docs, m) <==>
            (exists i | 0 <= i < |docs[m].children| :: docs[m].children[i].digest !in docs) ||
            (docs[m].IsReferrer() && docs[m].SubjectDigest() !in docs)
  {
    if i :| 0 <= i < |docs[m].children| && docs[m].children[i].digest !in docs {
      assert Needs(docs, m, docs[m].children[i].digest);
    }
    if docs[m].IsReferrer() && docs[m].SubjectDigest() !in docs {
      assert Needs(docs, m, docs[m].SubjectDigest());
    }
  }

  lemma TallyParents(docs: Docs, done: set<Digest>, t: Tally, m: Digest)
    requires m in docs && ParentsTallied(docs, done, t.parents)
    ensures ParentsTallied(docs, done + {m}, t.Manifest(docs, m).parents)
  {
    var t' := t.Manifest(docs, m);
    forall p, d | d in docs ensures p in ListedAt(t'.parents, d) <==> p in done + {m} && Needs(docs, p, d) {
      ChildrenLinked(t, docs, m, |docs[m].children|, p, d);
    }
  }

  lemma TallyFlags(docs: Docs, done: set<Digest>, t: Tally, m: Digest)
    requires m in docs && FlagsTallied(docs, done, t.flagged)
    ensures FlagsTallied(docs, done + {m}, t.Manifest(docs, m).flagged)
  {
    ChildrenFlagged(t, docs, m, |docs[m].children|);
    IncompleteSplit(docs, m);
  }

  lemma TallyManifest(docs: Docs, done: set<Digest>, t: Tally, m: Digest)
    requires m in docs && m !in done && Tallied(docs, done, t)
    ensures Tallied(docs, done + {m}, t.Manifest(docs, m))
  {
    TallyParents(docs, done, t, m);
    TallyFlags(docs, done, t, m);
    forall d
      ensures d in docs ==> At(t.Manifest(docs, m).owners, d) == Mentions(docs, done + {m}, d)
      ensures d in t.Manifest(docs, m).owned <==> d in docs && Mentions(docs, done + {m}, d) > 0
    {
      ChildrenCounted(t, docs, m, |docs[m].children|, d);
      MentionsAdd(docs, done, m, d);
    }
  }

  // ----- what the second walk keeps

  /** Each untagged listed manifest all of whose mentions are counted broken is flagged. */
  ghost predicate DebrisFlagged(docs: Docs, owners: map<Digest, nat>, w: Wave)
  {
    forall d {:trigger At(w.broken, d)} | d in docs && docs[d].tags == [] && 0 < At(w.broken, d) == At(owners, d) ::
        d in w.flagged
  }

  ghost predicate Followed(docs: Docs, popped: set<Digest>, flagged: set<Digest>)
  {
    forall p, d {:trigger Needs(docs, p, d)} | Needs(docs, p, d) && d in popped :: p in flagged
  }

  ghost predicate Spreading(docs: Docs, owners: map<Digest, nat>, popped: set<Digest>, w: Wave)
  {
    && popped <= w.flagged
    && w.flagged <= OrphanSet(docs)
    && OwnersTallied(docs, popped, w.broken)
    && Followed(docs, popped, w.flagged)
    && DebrisFlagged(docs, owners, w)
  }

  /** When the popped manifests and the first entries of m account for every mention of d,
      all owners of d are flagged, so every closed set of flags holds d. */
  lemma LastOwner(docs: Docs, bound: set<Digest>, popped: set<Digest>, m: Digest, d: Digest, j: nat)
    requires m in docs && d in docs && docs[d].tags == [] && m !in popped && popped <= docs.Keys
    requires popped + {m} <= bound && OrphanClosed(docs, bound)
    requires 0 < j <= |docs[m].children| && docs[m].children[j - 1].digest == d
    requires Mentions(docs, popped, d) + EntryCount(docs[m], j, d) == Mentions(docs, docs.Keys, d)
    ensures d in bound
  {
    EntryCountGrows(docs[m], j, |docs[m].children|, d);
    MentionsAdd(docs, popped, m, d);
    AllCounted(docs, popped + {m}, d);
    assert Owns(docs, m, d);
    assert Condemned(docs, bound, d);
  }

  lemma {:induction false} WaveCounted(docs: Docs, owners: map<Digest, nat>, m: Digest, j: nat, w: Wave, d: Digest)
    requires m in docs && j <= |docs[m].children|
    ensures At(w.Children(docs, owners, m, j).broken, d) == At(w.broken, d) + EntryCount(docs[m], j, d)
  {
    if j > 0 {
      WaveCounted(docs, owners, m, j - 1, w, d);
    }
  }

  lemma WaveStep(docs: Docs, owners: map<Digest, nat>, w: Wave, d: Digest)
    requires DebrisFlagged(docs, owners, w)
    ensures DebrisFlagged(docs, owners, w.Child(docs, owners, d))
  {
    var w' := w.Child(docs, owners, d);
    forall x | x != d ensures At(w'.broken, x) == At(w.broken, x) {
    }
  }

  lemma {:induction false} WaveChildren(docs: Docs, bound: set<Digest>, owners: map<Digest, nat>, popped: set<Digest>,
                                        m: Digest, j: nat, w: Wave)
    requires m in docs && j <= |docs[m].children| && m !in popped && popped <= docs.Keys
    requires popped + {m} <= w.flagged <= bound && OrphanClosed(docs, bound)
    requires OwnersTallied(docs, docs.Keys, owners) && OwnersTallied(docs, popped, w.broken)
    requires DebrisFlagged(docs, owners, w)
    ensures w.flagged <= w.Children(docs, owners, m, j).flagged <= bound
    ensures DebrisFlagged(docs, owners, w.Children(docs, owners, m, j))
  {
    if j > 0 {
      WaveChildren(docs, bound, owners, popped, m, j - 1, w);
      var d := docs[m].children[j - 1].digest;
      var w0 := w.Children(docs, owners, m, j - 1);
      WaveStep(docs, owners, w0, d);
      WaveCounted(docs, owners, m, j, w, d);
      if d in docs && docs[d].tags == [] && At(w0.Child(docs, owners, d).broken, d) == At(owners, d) {
        LastOwner(docs, bound, popped, m, d, j);
      }
    }
  }

  lemma ParentsOrphaned(docs: Docs, parents: map<Digest, seq<Digest>>, m: Digest)
    requires m in docs && m in OrphanSet(docs) && ParentsTallied(docs, docs.Keys, parents)
    ensures Elements(ListedAt(parents, m)) <= OrphanSet(docs)
  {
    OrphanSetLeast(docs);
    forall p | p in ListedAt(parents, m) ensures p in OrphanSet(docs) {
      assert Needs(docs, p, m);
      assert Condemned(docs, OrphanSet(docs), p);
    }
  }

  lemma SpreadManifest(docs: Docs, t: Tally, popped: set<Digest>, m: Digest, w: Wave)
    requires m in w.flagged && m in docs && m !in popped && popped <= docs.Keys
    requires Tallied(docs, docs.Keys, t) && Spreading(docs, t.owners, popped, w)
    ensures var w' := Wave(w.broken, w.flagged + Elements(ListedAt(t.parents, m)));
            Spreading(docs, t.owners, popped + {m}, w'.Children(docs, t.owners, m, |docs[m].children|))
  {
    var w' := Wave(w.broken, w.flagged + Elements(ListedAt(t.parents, m)));
    var n := |docs[m].children|;
    ParentsOrphaned(docs, t.parents, m);
    assert DebrisFlagged(docs, t.owners, w');
    OrphanSetLeast(docs);
    WaveChildren(docs, OrphanSet(docs), t.owners, popped, m, n, w');
    var w'' := w'.Children(docs, t.owners, m, n);
    SpreadCounts(docs, t.owners, popped, m, w');
    SpreadParents(docs, t.parents, popped, m, w.flagged, w''.flagged);
  }

  lemma SpreadCounts(docs: Docs, owners: map<Digest, nat>, popped: set<Digest>, m: Digest, w: Wave)
    requires m in docs && m !in popped && OwnersTallied(docs, popped, w.broken)
    ensures OwnersTallied(docs, popped + {m}, w.Children(docs, owners, m, |docs[m].children|).broken)
  {
    forall d | d in docs
      ensures At(w.Children(docs, owners, m, |docs[m].children|).broken, d) == Mentions(docs, popped + {m}, d)
    {
      WaveCounted(docs, owners, m, |docs[m].children|, w, d);
      MentionsAdd(docs, popped, m, d);
    }
  }

  lemma SpreadParents(docs: Docs, parents: map<Digest, seq<Digest>>, popped: set<Digest>, m: Digest,
                      before: set<Digest>, flagged: set<Digest>)
    requires m in docs && ParentsTallied(docs, docs.Keys, parents)
    requires before + Elements(ListedAt(parents, m)) <= flagged && Followed(docs, popped, before)
    ensures Followed(docs, popped + {m}, flagged)
  {
    forall p, d | Needs(docs, p, d) && d in popped + {m} ensures p in flagged {
      if d == m {
        assert p in ListedAt(parents, m);
      }
    }
  }

  lemma FirstFlags(docs: Docs, t: Tally)
    requires Tallied(docs, docs.Keys, t)
    ensures Spreading(docs, t.owners, {}, Wave(map[], t.flagged))
  {
    OrphanSetLeast(docs);
    forall d | d in t.flagged ensures d in OrphanSet(docs) {
      assert Condemned(docs, OrphanSet(docs), d);
    }
  }

  /** Once every flagged manifest has been popped, the flags are closed, hence the least set. */
  lemma Settled(docs: Docs, t: Tally, w: Wave)
    requires Tallied(docs, docs.Keys, t) && t.flagged <= w.flagged
    requires Spreading(docs, t.owners, w.flagged, w)
    ensures w.flagged == OrphanSet(docs)
  {
    OrphanSetLeast(docs);
    forall m | Condemned(docs, w.flagged, m)
      ensures m in w.flagged
    {
      if Incomplete(docs, m) {
        assert m in t.flagged;
      } else if d :| Needs(docs, m, d) && d in w.flagged {
      } else {
        AllCounted(docs, w.flagged, m);
        MentionsOwned(docs, docs.Keys, m);
        assert At(w.broken, m) == At(t.owners, m);
      }
    }
    assert OrphanClosed(docs, w.flagged);
  }

  // ----- whole walks

  /** The tally after walking the manifests of order. */
  ghost function Walk(docs: Docs, order: seq<Digest>): Tally
    requires Elements(order) <= docs.Keys
  {
    if order == [] then Tally(map[], map[], {}, {}) else
    var last := |order| - 1;
    assert order[last] in order;
    Walk(docs, order[..last]).Manifest(docs, order[last])
  }

  lemma {:induction false} WalkTallied(docs: Docs, order: seq<Digest>)
    requires Elements(order) <= docs.Keys && Distinct(order)
    ensures Tallied(docs, Elements(order), Walk(docs, order))
  {
    if order != [] {
      var last := |order| - 1;
      WalkTallied(docs, order[..last]);
      TallyManifest(docs, Elements(order[..last]), Walk(docs, order[..last]), order[last]);
      assert Elements(order) == Elements(order[..last]) + {order[last]};
    }
  }

  /** The second walk after popping the manifests of order. */
  ghost function Ripple(docs: Docs, t: Tally, order: seq<Digest>): Wave
    requires Elements(order) <= docs.Keys
  {
    if order == [] then Wave(map[], t.flagged) else
    var last := |order| - 1;
    var m := order[last];
    assert m in order;
    var w := Ripple(docs, t, order[..last]);
    Wave(w.broken, w.flagged + Elements(ListedAt(t.parents, m))).Children(docs, t.owners, m, |docs[m].children|)
  }

  /** Each manifest was flagged when it was popped. */
  ghost predicate PoppedFlagged(docs: Docs, t: Tally, order: seq<Digest>)
    requires Elements(order) <= docs.Keys
  {
    order == [] || (
      var last := |order| - 1;
      PoppedFlagged(docs, t, order[..last]) && order[last] in Ripple(docs, t, order[..last]).flagged)
  }

  lemma {:induction false} RippleSpreads(docs: Docs, t: Tally, order: seq<Digest>)
    requires Elements(order) <= docs.Keys && Distinct(order)
    requires Tallied(docs, docs.Keys, t) && PoppedFlagged(docs, t, order)
    ensures Spreading(docs, t.owners, Elements(order), Ripple(docs, t, order))
    ensures t.flagged <= Ripple(docs, t, order).flagged
  {
    if order == [] {
      FirstFlags(docs, t);
    } else {
      var last := |order| - 1;
      RippleSpreads(docs, t, order[..last]);
      assert order[last] in order;
      var w := Ripple(docs, t, order[..last]);
      SpreadManifest(docs, t, Elements(order[..last]), order[last], w);
      assert Elements(order) == Elements(order[..last]) + {order[last]};
      WaveGrows(docs, t.owners, order[last], |docs[order[last]].children|,
                Wave(w.broken, w.flagged + Elements(ListedAt(t.parents, order[last]))));
    }
  }

  lemma {:induction false} WaveGrows(docs: Docs, owners: map<Digest, nat>, m: Digest, j: nat, w: Wave)
    requires m in docs && j <= |docs[m].children|
    ensures w.flagged <= w.Children(docs, owners, m, j).flagged
  {
    if j > 0 {
      WaveGrows(docs, owners, m, j - 1, w);
    }
  }

  lemma RippleStep(docs: Docs, t: Tally, order: seq<Digest>, m: Digest)
    requires Elements(order) <= docs.Keys && m in docs && PoppedFlagged(docs, t, order)
    requires m in Ripple(docs, t, order).flagged
    ensures Elements(order + [m]) <= docs.Keys && PoppedFlagged(docs, t, order + [m])
    ensures var w := Ripple(docs, t, order);
            Ripple(docs, t, order + [m]) ==
            Wave(w.broken, w.flagged + Elements(ListedAt(t.parents, m))).Children(docs, t.owners, m, |docs[m].children|)
  {
    assert (order + [m])[..|order|] == order;
  }

  method Gather(entries: Entries, ghost docs: Docs)
    returns (owners: map<Digest, nat>, parents: map<Digest, seq<Digest>>, queue: seq<Digest>, ghost order: seq<Digest>)
    requires docs == EntryDocs(entries) && Separate(entries)
    requires FlagSet(entries) == {} && OwnedSet(entries) == {}
    modifies entries.Values`orphaned, entries.Values`hasOwner
    ensures Queued(entries, queue) && Distinct(order) && Elements(order) == docs.Keys
    ensures Tally(owners, parents, OwnedSet(entries), Elements(queue)) == Walk(docs, order)
  {
    owners, parents, queue, order := map[], map[], [], [];
    var todo := entries.Keys;
    while todo != {}
      invariant todo <= entries.Keys && Elements(order) == docs.Keys - todo && Distinct(order)
      invariant Queued(entries, queue)
      invariant Tally(owners, parents, OwnedSet(entries), Elements(queue)) == Walk(docs, order)
      decreases todo
    {
      var m :| m in todo;
      owners, parents, queue := Record(entries, docs, m, owners, parents, queue);
      todo := todo - {m};
      assert (order + [m])[..|order|] == order;
      order := order + [m];
    }
  }

  method Propagate(entries: Entries, ghost docs: Docs, owners: map<Digest, nat>, parents: map<Digest, seq<Digest>>,
                   first: seq<Digest>, ghost t: Tally) returns (ghost order: seq<Digest>)
    requires docs == EntryDocs(entries) && Separate(entries) && Queued(entries, first)
    requires t.owners == owners && t.parents == parents && t.flagged == Elements(first)
    requires forall d | d in docs :: Elements(ListedAt(parents, d)) <= docs.Keys
    modifies entries.Values`orphaned
    ensures Elements(order) <= docs.Keys && Distinct(order) && PoppedFlagged(docs, t, order)
    ensures FlagSet(entries) == Elements(order) == Ripple(docs, t, order).flagged
  {
    hide Queued, FlagSet, Separate, PoppedFlagged, ListedAt;
    var queue := first;
    var broken: map<Digest, nat> := map[];
    var i := 0;
    order := [];
    NothingPopped(docs, t);
    while i < |queue|
      invariant order <= queue && |order| == i && Elements(order) <= docs.Keys
      invariant Queued(entries, queue) && PoppedFlagged(docs, t, order)
      invariant Wave(broken, Elements(queue)) == Ripple(docs, t, order)
      decreases |entries| - i
    {
      QueuedMeans(entries, queue);
      DistinctFits(queue, entries.Keys);
      var m := queue[i];
      assert m in Elements(queue);
      broken, queue := Spread(entries, docs, m, owners, parents, broken, queue);
      RippleStep(docs, t, order, m);
      order := order + [m];
      i := i + 1;
    }
    QueuedMeans(entries, queue);
  }

  lemma NothingPopped(docs: Docs, t: Tally)
    ensures Elements([]) <= docs.Keys && PoppedFlagged(docs, t, [])
  {
  }

  lemma QueuedMeans(entries: Entries, queue: seq<Digest>)
    requires Queued(entries, queue)
    ensures Distinct(queue) && Elements(queue) == FlagSet(entries) <= entries.Keys
  {
  }

  /** Flags exactly the least orphan set, and records which manifests an index lists,
      whatever order the map is walked in. */
  method MarkOrphans(entries: Entries)
    requires Separate(entries)
    modifies entries.Values`orphaned, entries.Values`hasOwner
    ensures FlagSet(entries) == OrphanSet(EntryDocs(entries))
    ensures forall d {:trigger d in OwnedSet(entries)} ::
              d in OwnedSet(entries) <==> d in entries && Owned(EntryDocs(entries), d)
  {
    ghost var docs := EntryDocs(entries);
    Reset(entries);
    var owners, parents, queue, walked := Gather(entries, docs);
    ghost var t := Tally(owners, parents, OwnedSet(entries), Elements(queue));
    WalkTallied(docs, walked);
    forall d | d in docs ensures Elements(ListedAt(parents, d)) <= docs.Keys {
      assert forall p | p in ListedAt(t.parents, d) :: p in docs;
    }
    var popped := Propagate(entries, docs, owners, parents, queue, t);
    RippleSpreads(docs, t, popped);
    Settled(docs, t, Ripple(docs, t, popped));
    forall d ensures d in t.owned <==> d in docs && Owned(docs, d) {
      MentionsOwned(docs, docs.Keys, d);
    }
  }
}
