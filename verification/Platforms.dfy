/** Platforms of indexes, carried up from what they list (internal/registry/platform.go). */
module Platforms {
  import opened Manifests
  import opened Closures
  import opened Sums

  const UNKNOWN := "unknown"

  function Plain(name: string): string
  {
    if name == UNKNOWN then "" else name
  }

  function Normal(p: Platform): Platform
  {
    Platform(Plain(p.arch), Plain(p.os))
  }

  predicate Blank(p: Platform)
  {
    p.arch == "" && p.os == ""
  }

  predicate Conflict(a: string, b: string)
  {
    a != "" && b != "" && a != b
  }

  /** A pair of a child as its index sees it: narrowed by the descriptor, unless they conflict. */
  function Lift(p: Platform, constraint: Option<Platform>): Option<Platform>
  {
    if constraint.None? then Some(p) else
    var c := constraint.value;
    if Conflict(c.arch, p.arch) || Conflict(c.os, p.os) then None
    else Some(Platform(if c.arch != "" then c.arch else p.arch, if c.os != "" then c.os else p.os))
  }

  /** q is p, with names filled in. */
  predicate Refines(q: Platform, p: Platform)
  {
    (p.arch == "" || q.arch == p.arch) && (p.os == "" || q.os == p.os)
  }

  /** A pair is lifted exactly when it and the descriptor have a common refinement, and then to the
      most general one: never to a mix of two conflicting platforms. */
  lemma LiftMeets(p: Platform, constraint: Platform, r: Platform)
    ensures var q := Lift(p, Some(constraint));
            && (Refines(r, p) && Refines(r, constraint) ==> q.Some? && Refines(r, q.value))
            && (q.Some? ==> Refines(q.value, p) && Refines(q.value, constraint))
  {
  }

  /** A manifest is for a platform. */
  datatype Pair = Pair(digest: Digest, platform: Platform)

  function PairOf(d: Digest, p: Platform): set<Pair>
  {
    if Blank(Normal(p)) then {} else {Pair(d, Normal(p))}
  }

  /** The pairs a manifest states of itself: its own and those of its first j descriptors. */
  ghost function Stated(doc: Document, d: Digest, j: nat): set<Pair>
    requires j <= |doc.children|
  {
    PairOf(d, doc.platform) +
    set i, x | 0 <= i < j && doc.children[i].platform.Some? && x in PairOf(d, doc.children[i].platform.value) :: x
  }

  ghost function OwnPairs(docs: Docs): set<Pair>
  {
    set d, x | d in docs && x in Stated(docs[d], d, |docs[d].children|) :: x
  }

  /** The pairs one pair of a child gives the indexes listing it. */
  ghost function Lifted(docs: Docs, x: Pair): set<Pair>
  {
    set d, i, y | d in docs && 0 <= i < |docs[d].children| && docs[d].children[i].digest == x.digest &&
                  y in LiftedBy(d, docs[d].children[i].platform, x.platform) :: y
  }

  function LiftedBy(d: Digest, constraint: Option<Platform>, p: Platform): set<Pair>
  {
    var q := Lift(p, constraint);
    if q.None? then {} else PairOf(d, q.value)
  }

  /** The document or one of its descriptors names this platform. */
  ghost predicate Says(doc: Document, p: Platform)
  {
    doc.platform == p || exists i :: 0 <= i < |doc.children| && doc.children[i].platform == Some(p)
  }

  /** q is p as it is recorded: an unknown name counts as none. */
  ghost predicate Records(q: Platform, p: Platform)
  {
    && q.arch == (if p.arch == "unknown" then "" else p.arch)
    && q.os == (if p.os == "unknown" then "" else p.os)
  }

  lemma PairOfExact(d: Digest, p: Platform, x: Pair)
    ensures x in PairOf(d, p) <==>
            x.digest == d && Records(x.platform, p) && (x.platform.arch != "" || x.platform.os != "")
  {
  }

  lemma StatedExact(doc: Document, d: Digest, x: Pair)
    ensures x in Stated(doc, d, |doc.children|) <==> exists p :: Says(doc, p) && x in PairOf(d, p)
  {
    hide PairOf;
    if x in Stated(doc, d, |doc.children|) {
      if x in PairOf(d, doc.platform) {
        assert Says(doc, doc.platform);
      } else {
        var i :| 0 <= i < |doc.children| && doc.children[i].platform.Some? &&
                 x in PairOf(d, doc.children[i].platform.value);
        assert Says(doc, doc.children[i].platform.value);
      }
    }
  }

  /** The pairs stated are exactly the platforms named, with unknown names emptied, unless both are. */
  lemma OwnPairsExact(docs: Docs, x: Pair)
    ensures x in OwnPairs(docs) <==>
            && x.digest in docs && (x.platform.arch != "" || x.platform.os != "")
            && exists p :: Says(docs[x.digest], p) && Records(x.platform, p)
  {
    forall d, p ensures x in PairOf(d, p) <==>
                        x.digest == d && Records(x.platform, p) && (x.platform.arch != "" || x.platform.os != "")
    {
      PairOfExact(d, p, x);
    }
    forall d | d in docs
      ensures x in Stated(docs[d], d, |docs[d].children|) <==> exists p :: Says(docs[d], p) && x in PairOf(d, p)
    {
      StatedExact(docs[d], d, x);
    }
    hide PairOf, Records, Stated, Says;
  }

  /** An index gets, of a pair of what it lists, exactly the narrowing by its descriptor: where that
      names no platform, the pair itself; otherwise the names of the descriptor before those of the
      pair, unless they conflict. */
  lemma LiftedExact(docs: Docs, x: Pair, y: Pair)
    ensures y in Lifted(docs, x) <==>
            y.digest in docs && exists c :: c in docs[y.digest].children && c.digest == x.digest && Narrows(c, x, y)
  {
    forall d, constraint ensures y in LiftedBy(d, constraint, x.platform) <==>
                                   y.digest == d && Narrows(Descriptor(x.digest, constraint), x, y)
    {
      LiftedByExact(d, constraint, x, y);
    }
    hide LiftedBy, Narrows;
    if y in Lifted(docs, x) {
      var d, i :| d in docs && 0 <= i < |docs[d].children| && docs[d].children[i].digest == x.digest &&
                  y in LiftedBy(d, docs[d].children[i].platform, x.platform);
      var c := docs[d].children[i];
      assert c == Descriptor(x.digest, c.platform);
      assert c in docs[d].children;
    }
    if y.digest in docs {
      if c :| c in docs[y.digest].children && c.digest == x.digest && Narrows(c, x, y) {
        assert c == Descriptor(x.digest, c.platform);
        var i :| 0 <= i < |docs[y.digest].children| && docs[y.digest].children[i] == c;
        assert y in LiftedBy(y.digest, docs[y.digest].children[i].platform, x.platform);
      }
    }
  }

  ghost predicate Narrows(c: Descriptor, x: Pair, y: Pair)
  {
    && (y.platform.arch != "" || y.platform.os != "")
    && match c.platform
       case None => Records(y.platform, x.platform)
       case Some(p) =>
         && (p.arch == "" || x.platform.arch == "" || p.arch == x.platform.arch)
         && (p.os == "" || x.platform.os == "" || p.os == x.platform.os)
         && Records(y.platform, Platform(if p.arch == "" then x.platform.arch else p.arch,
                                         if p.os == "" then x.platform.os else p.os))
  }

  lemma LiftedByExact(d: Digest, constraint: Option<Platform>, x: Pair, y: Pair)
    ensures y in LiftedBy(d, constraint, x.platform) <==>
            y.digest == d && Narrows(Descriptor(x.digest, constraint), x, y)
  {
  }

  // ----- a finite universe

  ghost function Names(docs: Docs): set<string>
  {
    {""} + (set d | d in docs :: Plain(docs[d].platform.arch)) + (set d | d in docs :: Plain(docs[d].platform.os)) +
    (set d, i | d in docs && 0 <= i < |docs[d].children| && docs[d].children[i].platform.Some? ::
       Plain(docs[d].children[i].platform.value.arch)) +
    (set d, i | d in docs && 0 <= i < |docs[d].children| && docs[d].children[i].platform.Some? ::
       Plain(docs[d].children[i].platform.value.os))
  }

  ghost function Universe(docs: Docs): set<Pair>
  {
    set d, a, o | d in docs && a in Names(docs) && o in Names(docs) :: Pair(d, Platform(a, o))
  }

  /** Which pairs each pair of the universe gives rise to. */
  ghost function LiftEdges(docs: Docs): map<Pair, set<Pair>>
  {
    map x | x in Universe(docs) :: Lifted(docs, x)
  }

  /** The platforms of all manifests. */
  ghost function PlatformSet(docs: Docs): set<Pair>
  {
    Reach(LiftEdges(docs), OwnPairs(docs))
  }

  lemma LiftedNames(docs: Docs, x: Pair)
    requires x in Universe(docs)
    ensures Lifted(docs, x) <= Universe(docs)
  {
    forall d, i, y | d in docs && 0 <= i < |docs[d].children| && docs[d].children[i].digest == x.digest &&
                     y in LiftedBy(d, docs[d].children[i].platform, x.platform)
      ensures y in Universe(docs)
    {
      var c := docs[d].children[i].platform;
      assert c.Some? ==> Plain(c.value.arch) in Names(docs) && Plain(c.value.os) in Names(docs);
      assert x.platform.arch in Names(docs) && x.platform.os in Names(docs);
      assert y.platform.arch in Names(docs) && y.platform.os in Names(docs);
    }
  }

  lemma PairNames(docs: Docs, d: Digest, p: Platform)
    requires d in docs && Plain(p.arch) in Names(docs) && Plain(p.os) in Names(docs)
    ensures PairOf(d, p) <= Universe(docs)
  {
    hide Names;
  }

  lemma StatedNames(docs: Docs, d: Digest)
    requires d in docs
    ensures Stated(docs[d], d, |docs[d].children|) <= Universe(docs)
  {
    var children := docs[d].children;
    PairNames(docs, d, docs[d].platform);
    forall i | 0 <= i < |children| && children[i].platform.Some?
      ensures PairOf(d, children[i].platform.value) <= Universe(docs)
    {
      PairNames(docs, d, children[i].platform.value);
    }
    hide Universe, PairOf;
  }

  lemma OwnNames(docs: Docs)
    ensures OwnPairs(docs) <= Universe(docs)
  {
    forall d | d in docs ensures Stated(docs[d], d, |docs[d].children|) <= Universe(docs) {
      StatedNames(docs, d);
    }
    hide Universe, Stated;
  }

  lemma PlatformsWithin(docs: Docs)
    ensures PlatformSet(docs) <= Universe(docs)
  {
    OwnNames(docs);
    forall x | x in Universe(docs) ensures Lifted(docs, x) <= Universe(docs) {
      LiftedNames(docs, x);
    }
    hide Universe, Lifted, OwnPairs, Reach;
    ReachWithin(LiftEdges(docs), OwnPairs(docs), Universe(docs));
  }

  /** The least set with the stated pairs that is closed under lifting through every descriptor. */
  lemma PlatformSetLeast(docs: Docs)
    ensures OwnPairs(docs) <= PlatformSet(docs)
    ensures forall x | x in PlatformSet(docs) :: Lifted(docs, x) <= PlatformSet(docs)
    ensures forall s: set<Pair> | OwnPairs(docs) <= s && (forall x | x in s :: Lifted(docs, x) <= s) ::
              PlatformSet(docs) <= s
  {
    PlatformsWithin(docs);
    hide Universe, Lifted, OwnPairs, Reach;
    var edges := LiftEdges(docs);
    ReachLeast(edges, OwnPairs(docs));
    forall x | x in PlatformSet(docs) ensures Lifted(docs, x) <= PlatformSet(docs) {
      assert edges[x] <= PlatformSet(docs);
    }
    forall s: set<Pair> | OwnPairs(docs) <= s && (forall x | x in s :: Lifted(docs, x) <= s)
      ensures PlatformSet(docs) <= s
    {
      assert Bounds(edges, OwnPairs(docs), s);
    }
  }

  // ----- the pass

  /** An index listing a digest, and what its descriptor says of the platform. */
  datatype Owner = Owner(digest: Digest, constraint: Option<Platform>)

  function OwnersOf(parents: map<Digest, seq<Owner>>, d: Digest): seq<Owner>
  {
    if d in parents then parents[d] else []
  }

  ghost function PlatformLists(entries: Entries): map<Digest, seq<Platform>>
    reads entries.Values`platforms
  {
    map d | d in entries :: entries[d].platforms
  }

  /** The lists of the manifests done hold exactly the pairs seen, each once. */
  ghost predicate Recorded(lists: map<Digest, seq<Platform>>, done: set<Digest>, seen: set<Pair>)
  {
    && done <= lists.Keys
    && (forall x | x in seen :: x.digest in done)
    && (forall d | d in done :: Distinct(lists[d]) && forall p :: p in lists[d] <==> Pair(d, p) in seen)
  }

  method SetPlatforms(entries: Entries, d: Digest, list: seq<Platform>)
    requires Separate(entries) && d in entries
    modifies entries.Values`platforms
    ensures PlatformLists(entries) == old(PlatformLists(entries))[d := list]
  {
    entries[d].platforms := list;
  }

  lemma RecordedAdd(lists: map<Digest, seq<Platform>>, done: set<Digest>, seen: set<Pair>, d: Digest, p: Platform)
    requires Recorded(lists, done, seen) && d in done && Pair(d, p) !in seen
    ensures Recorded(lists[d := lists[d] + [p]], done, seen + {Pair(d, p)})
  {
  }

  lemma RecordedNext(lists: map<Digest, seq<Platform>>, done: set<Digest>, seen: set<Pair>, d: Digest)
    requires Recorded(lists, done, seen) && d in lists && d !in done
    ensures Recorded(lists[d := []], done + {d}, seen)
  {
  }

  /** Records a pair unless it is blank or already there. */
  method Add(entries: Entries, ghost done: set<Digest>, d: Digest, p: Platform, seen: set<Pair>, queue: seq<Pair>)
    returns (seen': set<Pair>, queue': seq<Pair>)
    requires Separate(entries) && d in entries && d in done && Recorded(PlatformLists(entries), done, seen)
    requires Distinct(queue) && Elements(queue) == seen
    modifies entries.Values`platforms
    ensures Recorded(PlatformLists(entries), done, seen') && seen' == seen + PairOf(d, p)
    ensures Distinct(queue') && Elements(queue') == seen' && queue <= queue'
  {
    hide Recorded, PlatformLists;
    seen', queue' := seen, queue;
    var q := Normal(p);
    if Blank(q) || Pair(d, q) in seen {
      return;
    }
    RecordedAdd(PlatformLists(entries), done, seen, d, q);
    ListAt(entries, d);
    SetPlatforms(entries, d, entries[d].platforms + [q]);
    assert Pair(d, q) !in Elements(queue);
    seen', queue' := seen + {Pair(d, q)}, queue + [Pair(d, q)];
  }

  lemma ListAt(entries: Entries, d: Digest)
    requires d in entries
    ensures d in PlatformLists(entries) && PlatformLists(entries)[d] == entries[d].platforms
  {
  }

  /** The owners of d among the first j descriptors of a manifest. */
  ghost function Lists(docs: Docs, m: Digest, j: nat, d: Digest): set<Owner>
    requires m in docs && j <= |docs[m].children|
  {
    set i | 0 <= i < j && docs[m].children[i].digest == d :: Owner(m, docs[m].children[i].platform)
  }

  ghost function Owners(docs: Docs, done: set<Digest>, d: Digest): set<Owner>
  {
    set m, o | m in done && m in docs && o in Lists(docs, m, |docs[m].children|, d) :: o
  }

  ghost predicate Parented(docs: Docs, done: set<Digest>, parents: map<Digest, seq<Owner>>)
  {
    forall d :: Elements(OwnersOf(parents, d)) == Owners(docs, done, d)
  }

  ghost predicate PartlyParented(docs: Docs, done: set<Digest>, m: Digest, j: nat, parents: map<Digest, seq<Owner>>)
    requires m in docs && j <= |docs[m].children|
  {
    forall d :: Elements(OwnersOf(parents, d)) == Owners(docs, done, d) + Lists(docs, m, j, d)
  }

  lemma ParentStep(docs: Docs, done: set<Digest>, m: Digest, j: nat, parents: map<Digest, seq<Owner>>)
    requires m in docs && j < |docs[m].children| && PartlyParented(docs, done, m, j, parents)
    ensures var c := docs[m].children[j];
            PartlyParented(docs, done, m, j + 1,
                           parents[c.digest := OwnersOf(parents, c.digest) + [Owner(m, c.platform)]])
  {
    var c := docs[m].children[j];
    var parents' := parents[c.digest := OwnersOf(parents, c.digest) + [Owner(m, c.platform)]];
    forall d ensures Elements(OwnersOf(parents', d)) == Owners(docs, done, d) + Lists(docs, m, j + 1, d) {
      assert Elements(OwnersOf(parents, d)) == Owners(docs, done, d) + Lists(docs, m, j, d);
      assert Lists(docs, m, j + 1, d) == Lists(docs, m, j, d) + if d == c.digest then {Owner(m, c.platform)} else {};
    }
  }

  lemma ParentsDone(docs: Docs, done: set<Digest>, m: Digest, parents: map<Digest, seq<Owner>>)
    requires m in docs
    ensures Parented(docs, done, parents) ==> PartlyParented(docs, done, m, 0, parents)
    ensures PartlyParented(docs, done, m, |docs[m].children|, parents) ==> Parented(docs, done + {m}, parents)
  {
    forall d ensures Lists(docs, m, 0, d) == {}
             ensures Owners(docs, done + {m}, d) == Owners(docs, done, d) + Lists(docs, m, |docs[m].children|, d) {
    }
  }

  lemma StatedStep(doc: Document, d: Digest, j: nat)
    requires j < |doc.children|
    ensures Stated(doc, d, j + 1) ==
            Stated(doc, d, j) + if doc.children[j].platform.Some? then PairOf(d, doc.children[j].platform.value) else {}
  {
  }

  /** Takes in what one manifest states. */
  method Visit(entries: Entries, ghost docs: Docs, ghost done: set<Digest>, m: Digest, seen: set<Pair>,
               queue: seq<Pair>,
               parents: map<Digest, seq<Owner>>)
    returns (seen': set<Pair>, queue': seq<Pair>, parents': map<Digest, seq<Owner>>)
    requires Separate(entries) && docs == EntryDocs(entries) && m in entries && m !in done
    requires Recorded(PlatformLists(entries), done, seen) && Distinct(queue) && Elements(queue) == seen
    requires Parented(docs, done, parents)
    modifies entries.Values`platforms
    ensures Recorded(PlatformLists(entries), done + {m}, seen') && Distinct(queue') && Elements(queue') == seen'
    ensures Parented(docs, done + {m}, parents')
    ensures seen' == seen + Stated(docs[m], m, |docs[m].children|)
  {
    hide Recorded, PlatformLists, Parented, PartlyParented, Stated, PairOf, Distinct, Elements;
    assert m in docs && docs[m] == entries[m].doc;
    RecordedFresh(entries, done, seen, m);
    SetPlatforms(entries, m, []);
    seen', queue' := Add(entries, done + {m}, m, entries[m].doc.platform, seen, queue);
    parents' := parents;
    ParentsDone(docs, done, m, parents);
    StatedNone(docs[m], m);
    var children := entries[m].doc.children;
    var j := 0;
    while j < |children|
      invariant j <= |children|
      invariant Recorded(PlatformLists(entries), done + {m}, seen') && Distinct(queue') && Elements(queue') == seen'
      invariant PartlyParented(docs, done, m, j, parents') && seen' == seen + Stated(docs[m], m, j)
    {
      var c := children[j];
      StatedStep(docs[m], m, j);
      if c.platform.Some? {
        seen', queue' := Add(entries, done + {m}, m, c.platform.value, seen', queue');
      }
      ParentStep(docs, done, m, j, parents');
      parents' := parents'[c.digest := OwnersOf(parents', c.digest) + [Owner(m, c.platform)]];
      j := j + 1;
    }
    ParentsDone(docs, done, m, parents');
  }

  lemma RecordedFresh(entries: Entries, done: set<Digest>, seen: set<Pair>, d: Digest)
    requires Recorded(PlatformLists(entries), done, seen) && d in entries && d !in done
    ensures Recorded(PlatformLists(entries)[d := []], done + {d}, seen)
  {
    RecordedNext(PlatformLists(entries), done, seen, d);
  }

  lemma StatedNone(doc: Document, d: Digest)
    ensures Stated(doc, d, 0) == PairOf(d, doc.platform)
  {
  }

  /** Takes in what every manifest states, whatever order the digests are walked in. */
  method VisitAll(entries: Entries, ghost docs: Docs)
    returns (seen: set<Pair>, queue: seq<Pair>, parents: map<Digest, seq<Owner>>)
    requires Separate(entries) && docs == EntryDocs(entries)
    modifies entries.Values`platforms
    ensures Recorded(PlatformLists(entries), docs.Keys, seen) && Distinct(queue) && Elements(queue) == seen
    ensures Parented(docs, docs.Keys, parents) && seen == OwnPairs(docs)
  {
    hide Recorded, PlatformLists, Parented, Stated, Distinct;
    seen, queue, parents := {}, [], map[];
    NothingVisited(entries, docs);
    ghost var done := {};
    var todo := entries.Keys;
    while todo != {}
      invariant todo <= entries.Keys && done == entries.Keys - todo
      invariant Recorded(PlatformLists(entries), done, seen) && Distinct(queue) && Elements(queue) == seen
      invariant Parented(docs, done, parents) && seen == OwnPairs(Visited(docs, done))
      decreases todo
    {
      var m :| m in todo;
      OwnPairsStep(docs, done, m);
      seen, queue, parents := Visit(entries, docs, done, m, seen, queue, parents);
      todo, done := todo - {m}, done + {m};
    }
    assert done == docs.Keys;
    assert Visited(docs, done) == docs;
  }

  ghost function Visited(docs: Docs, done: set<Digest>): Docs
  {
    map d | d in docs && d in done :: docs[d]
  }

  lemma OwnPairsStep(docs: Docs, done: set<Digest>, m: Digest)
    requires m in docs
    ensures OwnPairs(Visited(docs, done + {m})) == OwnPairs(Visited(docs, done)) +
            Stated(docs[m], m, |docs[m].children|)
  {
    hide Stated;
    forall x | x in OwnPairs(Visited(docs, done + {m}))
      ensures x in OwnPairs(Visited(docs, done)) + Stated(docs[m], m, |docs[m].children|)
    {
      var d :| d in Visited(docs, done + {m}) && x in Stated(docs[d], d, |docs[d].children|);
      assert d != m ==> d in Visited(docs, done);
    }
    assert m in Visited(docs, done + {m});
    forall x | x in OwnPairs(Visited(docs, done)) ensures x in OwnPairs(Visited(docs, done + {m})) {
      var d :| d in Visited(docs, done) && x in Stated(docs[d], d, |docs[d].children|);
      assert d in Visited(docs, done + {m});
    }
  }

  lemma NothingVisited(entries: Entries, docs: Docs)
    ensures Recorded(PlatformLists(entries), {}, {}) && Parented(docs, {}, map[]) && OwnPairs(Visited(docs, {})) == {}
    ensures var none: seq<Pair> := []; Distinct(none) && Elements(none) == {}
  {
  }

  // ----- carrying pairs up

  lemma OwnersLift(docs: Docs, list: seq<Owner>, x: Pair)
    requires Elements(list) == Owners(docs, docs.Keys, x.digest)
    ensures forall i | 0 <= i < |list| :: list[i].digest in docs
    ensures forall y :: y in Lifted(docs, x) <==>
              exists i :: 0 <= i < |list| && y in LiftedBy(list[i].digest, list[i].constraint, x.platform)
  {
    hide LiftedBy;
    forall i | 0 <= i < |list|
      ensures list[i].digest in docs && LiftedBy(list[i].digest, list[i].constraint, x.platform) <= Lifted(docs, x)
    {
      assert list[i] in Elements(list);
      var m :| m in docs && list[i] in Lists(docs, m, |docs[m].children|, x.digest);
    }
    forall y | y in Lifted(docs, x)
      ensures exists i :: 0 <= i < |list| && y in LiftedBy(list[i].digest, list[i].constraint, x.platform)
    {
      var d, k :| d in docs && 0 <= k < |docs[d].children| && docs[d].children[k].digest == x.digest &&
                  y in LiftedBy(d, docs[d].children[k].platform, x.platform);
      assert Owner(d, docs[d].children[k].platform) in Lists(docs, d, |docs[d].children|, x.digest);
      assert Owner(d, docs[d].children[k].platform) in Elements(list);
    }
  }

  /** The pairs the first j owners get from x. */
  ghost function LiftedTo(list: seq<Owner>, j: nat, x: Pair): set<Pair>
    requires j <= |list|
  {
    set i, y | 0 <= i < j && y in LiftedBy(list[i].digest, list[i].constraint, x.platform) :: y
  }

  lemma LiftedToStep(list: seq<Owner>, j: nat, x: Pair)
    requires j < |list|
    ensures LiftedTo(list, j + 1, x) == LiftedTo(list, j, x) + LiftedBy(list[j].digest, list[j].constraint, x.platform)
  {
    hide LiftedBy;
  }

  lemma LiftedToAll(docs: Docs, list: seq<Owner>, x: Pair)
    requires Elements(list) == Owners(docs, docs.Keys, x.digest)
    ensures forall i | 0 <= i < |list| :: list[i].digest in docs
    ensures LiftedTo(list, 0, x) == {} && LiftedTo(list, |list|, x) == Lifted(docs, x)
  {
    OwnersLift(docs, list, x);
    hide LiftedBy, Lifted, Owners;
  }

  /** Gives one pair to the indexes listing its manifest. */
  method LiftOne(entries: Entries, ghost docs: Docs, x: Pair, list: seq<Owner>, seen: set<Pair>, queue: seq<Pair>)
    returns (seen': set<Pair>, queue': seq<Pair>)
    requires Separate(entries) && docs == EntryDocs(entries) && Elements(list) == Owners(docs, docs.Keys, x.digest)
    requires Recorded(PlatformLists(entries), docs.Keys, seen) && Distinct(queue) && Elements(queue) == seen
    modifies entries.Values`platforms
    ensures Recorded(PlatformLists(entries), docs.Keys, seen') && Distinct(queue') && Elements(queue') == seen'
    ensures queue <= queue' && seen' == seen + Lifted(docs, x)
  {
    hide Recorded, PlatformLists, Lifted, Owners, Distinct, LiftedTo, PairOf, Lift;
    LiftedToAll(docs, list, x);
    seen', queue' := seen, queue;
    var j := 0;
    while j < |list|
      invariant j <= |list| && queue <= queue' && seen' == seen + LiftedTo(list, j, x)
      invariant Recorded(PlatformLists(entries), docs.Keys, seen') && Distinct(queue') && Elements(queue') == seen'
    {
      LiftedToStep(list, j, x);
      var q := Lift(x.platform, list[j].constraint);
      if q.Some? {
        seen', queue' := Add(entries, docs.Keys, list[j].digest, q.value, seen', queue');
      }
      j := j + 1;
    }
  }

  /** The pairs seen are stated or lifted, and those popped have been lifted. */
  ghost predicate Carrying(docs: Docs, seen: set<Pair>, popped: set<Pair>)
  {
    && OwnPairs(docs) <= seen <= PlatformSet(docs)
    && forall x | x in popped :: Lifted(docs, x) <= seen
  }

  lemma CarryStart(docs: Docs)
    ensures Carrying(docs, OwnPairs(docs), {})
  {
    PlatformSetLeast(docs);
  }

  lemma CarryStep(docs: Docs, seen: set<Pair>, popped: set<Pair>, x: Pair)
    requires Carrying(docs, seen, popped) && x in seen
    ensures Carrying(docs, seen + Lifted(docs, x), popped + {x})
  {
    PlatformSetLeast(docs);
    hide PlatformSet, OwnPairs, Lifted;
  }

  lemma CarryDone(docs: Docs, seen: set<Pair>)
    requires Carrying(docs, seen, seen)
    ensures seen == PlatformSet(docs)
  {
    PlatformSetLeast(docs);
    hide PlatformSet, OwnPairs, Lifted;
  }

  lemma QueueFits(docs: Docs, seen: set<Pair>, popped: set<Pair>, queue: seq<Pair>)
    requires Carrying(docs, seen, popped) && Distinct(queue) && Elements(queue) == seen
    ensures |queue| <= |Universe(docs)|
  {
    PlatformsWithin(docs);
    hide PlatformSet, Universe;
    DistinctFits(queue, Universe(docs));
  }

  /** Gives every manifest exactly its platforms, each once. */
  method ResolveIndexPlatforms(entries: Entries)
    requires Separate(entries)
    modifies entries.Values`platforms
    ensures forall d | d in entries :: Distinct(entries[d].platforms)
    ensures forall d, p | d in entries :: p in entries[d].platforms <==> Pair(d, p) in PlatformSet(EntryDocs(entries))
  {
    hide Recorded, PlatformLists, Parented, Carrying, PlatformSet, Universe, OwnPairs, Distinct, Lifted, EntryDocs;
    ghost var docs := EntryDocs(entries);
    DocsKeys(entries);
    var seen, queue, parents := VisitAll(entries, docs);
    CarryStart(docs);
    var i := 0;
    assert Elements(queue[..0]) == {};
    while i < |queue|
      invariant i <= |queue| && Carrying(docs, seen, Elements(queue[..i]))
      invariant Recorded(PlatformLists(entries), docs.Keys, seen) && Distinct(queue) && Elements(queue) == seen
      decreases |Universe(docs)| - i
    {
      var x := queue[i];
      QueueFits(docs, seen, Elements(queue[..i]), queue);
      assert x in Elements(queue);
      CarryStep(docs, seen, Elements(queue[..i]), x);
      assert Elements(queue[..i + 1]) == Elements(queue[..i]) + {x};
      OwnersAt(docs, parents, x.digest);
      ghost var before := queue[..i + 1];
      seen, queue := LiftOne(entries, docs, x, OwnersOf(parents, x.digest), seen, queue);
      assert queue[..i + 1] == before;
      i := i + 1;
    }
    assert queue[..i] == queue;
    CarryDone(docs, seen);
    RecordedMeans(entries, seen);
  }

  lemma DocsKeys(entries: Entries)
    ensures EntryDocs(entries).Keys == entries.Keys
  {
  }

  lemma OwnersAt(docs: Docs, parents: map<Digest, seq<Owner>>, d: Digest)
    requires Parented(docs, docs.Keys, parents)
    ensures Elements(OwnersOf(parents, d)) == Owners(docs, docs.Keys, d)
  {
  }

  lemma RecordedMeans(entries: Entries, seen: set<Pair>)
    requires Recorded(PlatformLists(entries), entries.Keys, seen)
    ensures forall d | d in entries :: Distinct(entries[d].platforms)
    ensures forall d, p | d in entries :: p in entries[d].platforms <==> Pair(d, p) in seen
  {
    forall d | d in entries ensures PlatformLists(entries)[d] == entries[d].platforms {
    }
  }
}
