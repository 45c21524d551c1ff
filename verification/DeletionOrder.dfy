/** The order of a deletion run: indexes before what they list, subjects before their
    referrers (deletionBatches in internal/registry/delete.go). */
module DeletionOrder {
  import opened Manifests
  import opened Batches
  import opened Sums

  type Edge = (Ref, Ref)

  /** The index p lists c. */
  ghost predicate ListsRef(doc: Document, c: Ref)
  {
    c.repository == doc.repository && c.digest in doc.Children()
  }

  /** The subject of a manifest that does not also list it. */
  ghost predicate GoesAfter(doc: Document, p: Ref)
  {
    doc.IsReferrer() && p == Ref(doc.repository, doc.SubjectDigest()) && doc.SubjectDigest() !in doc.Children()
  }

  /** p must be deleted before c, both being deleted. */
  ghost predicate Before(byRef: map<Ref, Document>, p: Ref, c: Ref)
  {
    p in byRef && c in byRef && (ListsRef(byRef[p], c) || GoesAfter(byRef[c], p))
  }

  ghost predicate Keyed(byRef: map<Ref, Document>)
  {
    forall r | r in byRef :: byRef[r].Reference() == r
  }

  /** The lists hold exactly the edges of the set. */
  ghost predicate Records(nodes: set<Ref>, parents: map<Ref, seq<Ref>>, children: map<Ref, seq<Ref>>, edges: set<Edge>)
  {
    Mirrored(nodes, parents, children) && Members(nodes, parents, edges)
  }

  ghost predicate Members(nodes: set<Ref>, parents: map<Ref, seq<Ref>>, edges: set<Edge>)
    requires nodes <= parents.Keys
  {
    forall p, c | c in nodes :: p in parents[c] <==> (p, c) in edges
  }

  lemma CountAppend<T>(s: seq<T>, x: T, y: T)
    ensures Count(s + [x], y) == Count(s, y) + if x == y then 1 else 0
  {
    assert (s + [x])[..|s|] == s;
  }

  lemma RecordCounts(nodes: set<Ref>, parents: map<Ref, seq<Ref>>, children: map<Ref, seq<Ref>>, p: Ref, c: Ref)
    requires nodes <= parents.Keys && nodes <= children.Keys && SameEdges(nodes, parents, children) && p in nodes &&
             c in nodes
    ensures SameEdges(nodes, parents[c := parents[c] + [p]], children[p := children[p] + [c]])
  {
    var parents', children' := parents[c := parents[c] + [p]], children[p := children[p] + [c]];
    forall q, d | q in nodes && d in nodes ensures Count(children'[q], d) == Count(parents'[d], q) {
      CountAppend(children[p], c, d);
      CountAppend(parents[c], p, q);
      hide Count;
      assert Count(children[q], d) == Count(parents[d], q);
    }
  }

  lemma RecordEnclosed(nodes: set<Ref>, lists: map<Ref, seq<Ref>>, p: Ref, c: Ref)
    requires Enclosed(nodes, lists) && p in nodes && c in nodes
    ensures Enclosed(nodes, lists[c := lists[c] + [p]])
  {
    assert Elements(lists[c] + [p]) == Elements(lists[c]) + {p};
  }

  lemma RecordMembers(nodes: set<Ref>, parents: map<Ref, seq<Ref>>, edges: set<Edge>, p: Ref, c: Ref)
    requires nodes <= parents.Keys && Members(nodes, parents, edges) && c in nodes
    ensures Members(nodes, parents[c := parents[c] + [p]], edges + {(p, c)})
  {
  }

  lemma RecordEdge(nodes: set<Ref>, parents: map<Ref, seq<Ref>>, children: map<Ref, seq<Ref>>, edges: set<Edge>,
                   p: Ref, c: Ref)
    requires Records(nodes, parents, children, edges) && p in nodes && c in nodes
    ensures p in children && c in parents
    ensures Records(nodes, parents[c := parents[c] + [p]], children[p := children[p] + [c]], edges + {(p, c)})
  {
    RecordCounts(nodes, parents, children, p, c);
    RecordEnclosed(nodes, parents, p, c);
    RecordEnclosed(nodes, children, c, p);
    RecordMembers(nodes, parents, edges, p, c);
    hide Count, SameEdges, Members;
  }

  /** The edges from m to the listed manifests among the given digests. */
  ghost function ChildEdges(byRef: map<Ref, Document>, m: Ref, digests: set<Digest>): set<Edge>
  {
    set c | c in byRef && c.repository == m.repository && c.digest in digests :: (m, c)
  }

  ghost function SubjectEdges(byRef: map<Ref, Document>, m: Ref): set<Edge>
    requires m in byRef
  {
    set p | p in byRef && GoesAfter(byRef[m], p) :: (p, m)
  }

  method AddEdges(byRef: map<Ref, Document>, m: Ref, parents: map<Ref, seq<Ref>>, children: map<Ref, seq<Ref>>,
                  ghost edges: set<Edge>)
    returns (parents': map<Ref, seq<Ref>>, children': map<Ref, seq<Ref>>)
    requires Keyed(byRef) && m in byRef && Records(byRef.Keys, parents, children, edges)
    ensures Records(byRef.Keys, parents', children',
                    edges + ChildEdges(byRef, m, byRef[m].Children()) + SubjectEdges(byRef, m))
  {
    hide Records, GoesAfter;
    RecordsKeys(byRef.Keys, parents, children, edges);
    parents', children' := parents, children;
    ghost var now := edges;
    var entries := byRef[m].Entries();
    var j := 0;
    while j < |entries|
      invariant j <= |entries| && now == edges + ChildEdges(byRef, m, Elements(entries[..j]))
      invariant Records(byRef.Keys, parents', children', now)
      invariant parents'.Keys == byRef.Keys && children'.Keys == byRef.Keys
    {
      var c := Ref(m.repository, entries[j]);
      assert Elements(entries[..j + 1]) == Elements(entries[..j]) + {entries[j]} by {
        assert entries[..j + 1] == entries[..j] + [entries[j]];
      }
      if c in byRef {
        RecordEdge(byRef.Keys, parents', children', now, m, c);
        parents', children' := parents'[c := parents'[c] + [m]], children'[m := children'[m] + [c]];
        now := now + {(m, c)};
      }
      j := j + 1;
    }
    assert entries[..j] == entries;
    assert Elements(entries) == byRef[m].Children();
    SubjectEdge(byRef, m);
    var subject := byRef[m].SubjectDigest();
    if subject != "" && subject !in byRef[m].Children() {
      var p := Ref(m.repository, subject);
      if p in byRef {
        RecordEdge(byRef.Keys, parents', children', now, p, m);
        parents', children' := parents'[m := parents'[m] + [p]], children'[p := children'[p] + [m]];
        now := now + {(p, m)};
      }
    }
    assert now == edges + ChildEdges(byRef, m, byRef[m].Children()) + SubjectEdges(byRef, m);
  }

  lemma RecordsKeys(nodes: set<Ref>, parents: map<Ref, seq<Ref>>, children: map<Ref, seq<Ref>>, edges: set<Edge>)
    requires Records(nodes, parents, children, edges)
    ensures parents.Keys == nodes && children.Keys == nodes
  {
  }

  lemma SubjectEdge(byRef: map<Ref, Document>, m: Ref)
    requires Keyed(byRef) && m in byRef
    ensures var doc := byRef[m]; var p := Ref(m.repository, doc.SubjectDigest());
            SubjectEdges(byRef, m) ==
            if doc.SubjectDigest() != "" && doc.SubjectDigest() !in doc.Children() && p in byRef then {(p, m)} else {}
  {
  }

  // ----- all edges

  /** The edges of the first manifests of a run over the list. */
  ghost function EdgesOf(byRef: map<Ref, Document>, refs: set<Ref>): set<Edge>
  {
    set p, c | p in byRef && c in byRef &&
               ((p in refs && ListsRef(byRef[p], c)) || (c in refs && GoesAfter(byRef[c], p))) :: (p, c)
  }

  lemma EdgesStep(byRef: map<Ref, Document>, refs: set<Ref>, m: Ref)
    requires Keyed(byRef) && m in byRef
    ensures EdgesOf(byRef, refs + {m}) ==
            EdgesOf(byRef, refs) + ChildEdges(byRef, m, byRef[m].Children()) + SubjectEdges(byRef, m)
  {
    assert byRef[m].repository == m.repository;
  }

  function RefsOf(docs: seq<Document>): seq<Ref>
  {
    if docs == [] then [] else RefsOf(docs[..|docs| - 1]) + [docs[|docs| - 1].Reference()]
  }

  /** The manifests by reference. */
  function ByRef(docs: seq<Document>): map<Ref, Document>
  {
    if docs == [] then map[] else
    var last := docs[|docs| - 1];
    ByRef(docs[..|docs| - 1])[last.Reference() := last]
  }

  lemma {:induction false} ByRefKeys(docs: seq<Document>)
    ensures ByRef(docs).Keys == Elements(RefsOf(docs))
    ensures Keyed(ByRef(docs))
    ensures forall r | r in ByRef(docs) :: ByRef(docs)[r] in docs
  {
    if docs != [] {
      ByRefKeys(docs[..|docs| - 1]);
      assert docs == docs[..|docs| - 1] + [docs[|docs| - 1]];
    }
  }

  lemma SelectionStep(docs: seq<Document>, i: nat)
    requires i < |docs|
    ensures RefsOf(docs[..i + 1]) == RefsOf(docs[..i]) + [docs[i].Reference()]
    ensures ByRef(docs[..i + 1]) == ByRef(docs[..i])[docs[i].Reference() := docs[i]]
  {
    assert docs[..i + 1][..i] == docs[..i];
  }

  lemma {:induction false} RefsAt(docs: seq<Document>)
    ensures |RefsOf(docs)| == |docs| && forall i | 0 <= i < |docs| :: RefsOf(docs)[i] == docs[i].Reference()
  {
    if docs != [] {
      RefsAt(docs[..|docs| - 1]);
    }
  }

  lemma {:induction false} RefsPrefix(docs: seq<Document>, i: nat)
    requires i <= |docs|
    ensures RefsOf(docs[..i]) <= RefsOf(docs)
    decreases |docs| - i
  {
    if i < |docs| {
      SelectionStep(docs, i);
      RefsPrefix(docs, i + 1);
    } else {
      assert docs[..i] == docs;
    }
  }

  /** No two of the manifests have the same reference. */
  ghost predicate Unrepeated(docs: seq<Document>)
  {
    Distinct(RefsOf(docs))
  }

  /** The deletion order ties a manifest to itself: a path along the order that returns. */
  ghost predicate Chain(byRef: map<Ref, Document>, path: seq<Ref>)
  {
    && path != [] && path[0] in byRef
    && (|path| > 1 ==> Before(byRef, path[1], path[0]) && Chain(byRef, path[1..]))
  }

  ghost predicate Tied(byRef: map<Ref, Document>)
  {
    exists path :: Chain(byRef, path) && |path| > 1 && path[0] == path[|path| - 1]
  }

  ghost predicate Orders(byRef: map<Ref, Document>, parents: map<Ref, seq<Ref>>)
  {
    parents.Keys == byRef.Keys && forall p, c | c in parents :: p in parents[c] <==> Before(byRef, p, c)
  }

  lemma {:induction false} ChainUpward(byRef: map<Ref, Document>, parents: map<Ref, seq<Ref>>, path: seq<Ref>)
    requires Orders(byRef, parents)
    ensures Chain(byRef, path) <==> Upward(parents, path)
  {
    hide Before;
    if |path| > 1 {
      ChainUpward(byRef, parents, path[1..]);
    }
  }

  lemma TiedCycle(byRef: map<Ref, Document>, parents: map<Ref, seq<Ref>>)
    requires Orders(byRef, parents)
    ensures Tied(byRef) <==> HasCycle(parents)
  {
    forall path: seq<Ref> ensures Chain(byRef, path) <==> Upward(parents, path) {
      ChainUpward(byRef, parents, path);
    }
    hide Orders, Chain, Upward;
    if Tied(byRef) {
      var path :| Chain(byRef, path) && |path| > 1 && path[0] == path[|path| - 1];
      assert Cycle(parents, path);
    }
    if HasCycle(parents) {
      var path :| Cycle(parents, path);
      assert Chain(byRef, path);
    }
  }

  lemma RecordsOrder(byRef: map<Ref, Document>, parents: map<Ref, seq<Ref>>, children: map<Ref, seq<Ref>>)
    requires Records(byRef.Keys, parents, children, EdgesOf(byRef, byRef.Keys))
    ensures Orders(byRef, parents) && Mirrored(byRef.Keys, parents, children)
  {
    hide SameEdges, ListsRef, GoesAfter;
    forall p, c | c in parents ensures p in parents[c] <==> Before(byRef, p, c) {
      if p in parents[c] {
        assert (p, c) in EdgesOf(byRef, byRef.Keys);
      }
    }
  }

  datatype Ordering =
    | Ordered(batches: seq<seq<Ref>>, parents: map<Ref, seq<Ref>>)
    | Invalid
    | Duplicate
    | Cyclic

  /** The references of the manifests, or what is wrong with the first manifest at fault. */
  method CheckSelection(docs: seq<Document>, valid: Document -> bool)
    returns (byRef: map<Ref, Document>, fault: Option<Ordering>)
    ensures fault.None? <==> (forall i | 0 <= i < |docs| :: valid(docs[i])) && Unrepeated(docs)
    ensures fault.None? ==> byRef == ByRef(docs)
    ensures fault.Some? ==> fault.value in {Invalid, Duplicate}
    ensures fault == Some(Invalid) ==> exists i | 0 <= i < |docs| :: !valid(docs[i])
    ensures fault == Some(Duplicate) ==> !Unrepeated(docs)
  {
    hide RefsOf, ByRef;
    byRef := map[];
    var i := 0;
    NothingSelected();
    while i < |docs|
      invariant i <= |docs| && byRef == ByRef(docs[..i])
      invariant forall k | 0 <= k < i :: valid(docs[k])
      invariant Distinct(RefsOf(docs[..i]))
    {
      var m := docs[i];
      if !valid(m) {
        return map[], Some(Invalid);
      }
      ByRefKeys(docs[..i]);
      SelectionStep(docs, i);
      if m.Reference() in byRef {
        Repeated(docs, i);
        return map[], Some(Duplicate);
      }
      DistinctAppend(RefsOf(docs[..i]), [m.Reference()]);
      byRef := byRef[m.Reference() := m];
      i := i + 1;
    }
    assert docs[..i] == docs;
    fault := None;
  }

  lemma NothingSelected()
    ensures RefsOf([]) == [] && ByRef([]) == map[]
  {
  }

  lemma Repeated(docs: seq<Document>, i: nat)
    requires i < |docs| && docs[i].Reference() in RefsOf(docs[..i])
    ensures !Unrepeated(docs)
  {
    SelectionStep(docs, i);
    RefsPrefix(docs, i + 1);
    var refs := RefsOf(docs[..i]);
    var k :| 0 <= k < |refs| && refs[k] == docs[i].Reference();
    assert RefsOf(docs)[k] == RefsOf(docs)[|refs|];
  }

  lemma NoRecords(nodes: set<Ref>)
    ensures Records(nodes, map r | r in nodes :: [], map r | r in nodes :: [], {})
  {
  }

  /** Validates the selection and sorts it into batches: every manifest once, at a level as high
      as the longest chain of manifests to delete before it. */
  method DeletionBatches(docs: seq<Document>, valid: Document -> bool) returns (r: Ordering, ghost level: map<Ref, nat>)
    ensures r.Ordered? || r.Cyclic? <==> (forall i | 0 <= i < |docs| :: valid(docs[i])) && Unrepeated(docs)
    ensures r.Invalid? ==> exists i | 0 <= i < |docs| :: !valid(docs[i])
    ensures r.Duplicate? ==> !Unrepeated(docs)
    ensures r.Cyclic? ==> Tied(ByRef(docs))
    ensures r.Ordered? ==> !Tied(ByRef(docs)) && Orders(ByRef(docs), r.parents)
    ensures r.Ordered? ==> level.Keys == ByRef(docs).Keys && Levelled(r.parents, level) && Listing(level, r.batches)
    ensures r.Ordered? ==> FollowsFields(docs, r.batches, r.parents)
  {
    hide Records, Levelled, Listing, Orders, Tied, FollowsFields, Mirrored, HasCycle, EdgesOf, ByRef, RefsOf, Before,
        ListsRef, GoesAfter;
    level := map[];
    var byRef, fault := CheckSelection(docs, valid);
    if fault.Some? {
      return fault.value, level;
    }
    ByRefKeys(docs);
    var refs := RefsOf(docs);
    var parents: map<Ref, seq<Ref>> := map r | r in byRef.Keys :: [];
    var children: map<Ref, seq<Ref>> := map r | r in byRef.Keys :: [];
    NoRecords(byRef.Keys);
    NoEdges(byRef);
    var i := 0;
    while i < |refs|
      invariant i <= |refs| && Records(byRef.Keys, parents, children, EdgesOf(byRef, Elements(refs[..i])))
    {
      assert refs[i] in Elements(refs);
      EdgesStep(byRef, Elements(refs[..i]), refs[i]);
      assert Elements(refs[..i + 1]) == Elements(refs[..i]) + {refs[i]} by {
        assert refs[..i + 1] == refs[..i] + [refs[i]];
      }
      parents, children := AddEdges(byRef, refs[i], parents, children, EdgesOf(byRef, Elements(refs[..i])));
      i := i + 1;
    }
    assert refs[..i] == refs;
    RecordsOrder(byRef, parents, children);
    TiedCycle(byRef, parents);
    var ok, batches;
    ok, batches, level := Layers(refs, parents, children);
    if ok {
      OrderedFields(docs, batches, parents, level);
    }
    return if ok then Ordered(batches, parents) else Cyclic, level;
  }

  // ----- the order, by the fields of the documents

  /** a must be deleted before c: a lists c; or c refers to a and does not list it. */
  ghost predicate Precede(a: Document, c: Document)
  {
    a.repository == c.repository &&
    (HasChild(a, c.digest) || (Refers(c, a.digest) && !HasChild(c, a.digest)))
  }

  ghost predicate InBatch(batches: seq<seq<Ref>>, i: int, r: Ref)
  {
    0 <= i < |batches| && r in batches[i]
  }

  ghost predicate EarlierBatch(batches: seq<seq<Ref>>, p: Ref, c: Ref)
  {
    exists i, j :: i < j && InBatch(batches, i, p) && InBatch(batches, j, c)
  }

  /** The parents of each document are exactly those that must go before it, and in earlier batches. */
  ghost predicate FollowsFields(docs: seq<Document>, batches: seq<seq<Ref>>, parents: map<Ref, seq<Ref>>)
  {
    forall a, c | a in docs && c in docs ::
      && Ref(c.repository, c.digest) in parents
      && (Precede(a, c) <==> Ref(a.repository, a.digest) in parents[Ref(c.repository, c.digest)])
      && (Precede(a, c) ==> EarlierBatch(batches, Ref(a.repository, a.digest), Ref(c.repository, c.digest)))
  }

  lemma BeforeExact(byRef: map<Ref, Document>, a: Ref, c: Ref)
    requires Keyed(byRef) && a in byRef && c in byRef
    ensures Before(byRef, a, c) <==> Precede(byRef[a], byRef[c])
  {
    RefersExact(byRef[a]);
    RefersExact(byRef[c]);
    hide Refers, HasChild;
  }

  lemma {:induction false} ByRefAt(docs: seq<Document>, m: Document)
    requires Unrepeated(docs) && m in docs
    ensures Ref(m.repository, m.digest) in ByRef(docs) && ByRef(docs)[Ref(m.repository, m.digest)] == m
  {
    ByRefKeys(docs);
    RefsAt(docs);
    var r := Ref(m.repository, m.digest);
    var i :| 0 <= i < |docs| && docs[i] == m;
    assert RefsOf(docs)[i] == r;
    assert r in Elements(RefsOf(docs));
    var k :| 0 <= k < |docs| && docs[k] == ByRef(docs)[r];
    assert RefsOf(docs)[k] == r;
    hide ByRef, RefsOf;
    assert k == i;
  }

  lemma LevelledBatches(parents: map<Ref, seq<Ref>>, level: map<Ref, nat>, batches: seq<seq<Ref>>, p: Ref,
                        c: Ref)
    requires Levelled(parents, level) && Listing(level, batches) && c in parents && p in parents[c]
    requires p in level && c in level
    ensures EarlierBatch(batches, p, c)
  {
    assert level[p] < level[c];
    assert InBatch(batches, level[p], p) && InBatch(batches, level[c], c);
  }

  lemma OrderedFields(docs: seq<Document>, batches: seq<seq<Ref>>, parents: map<Ref, seq<Ref>>, level: map<Ref, nat>)
    requires Unrepeated(docs) && Orders(ByRef(docs), parents)
    requires level.Keys == ByRef(docs).Keys && Levelled(parents, level) && Listing(level, batches)
    ensures FollowsFields(docs, batches, parents)
  {
    ByRefKeys(docs);
    hide Levelled, Listing, Unrepeated, Before, EarlierBatch, ByRef, Precede;
    forall a, c | a in docs && c in docs
      ensures && Ref(c.repository, c.digest) in parents
              && (Precede(a, c) <==> Ref(a.repository, a.digest) in parents[Ref(c.repository, c.digest)])
              && (Precede(a, c) ==> EarlierBatch(batches, Ref(a.repository, a.digest), Ref(c.repository, c.digest)))
    {
      var p, r := Ref(a.repository, a.digest), Ref(c.repository, c.digest);
      ByRefAt(docs, a);
      ByRefAt(docs, c);
      BeforeExact(ByRef(docs), p, r);
      if Precede(a, c) {
        LevelledBatches(parents, level, batches, p, r);
      }
    }
  }

  lemma NoEdges(byRef: map<Ref, Document>)
    ensures EdgesOf(byRef, Elements([])) == {}
  {
  }
}
