/** The newest-first order of manifests and positions in it (byNewest in internal/pruner/eval.go). */
module Order {
  import opened Manifests
  import opened Sums

  /** Byte-wise comparison of strings, as strings.Compare orders them. */
  predicate TextBefore(a: string, b: string)
  {
    b != "" && (a == "" || a[0] < b[0] || (a[0] == b[0] && TextBefore(a[1..], b[1..])))
  }

  lemma {:induction false} TextBeforeTransitive(a: string, b: string, c: string)
    requires TextBefore(a, b) && TextBefore(b, c)
    ensures TextBefore(a, c)
  {
    if a != "" && a[0] == b[0] == c[0] {
      TextBeforeTransitive(a[1..], b[1..], c[1..]);
    }
  }

  lemma {:induction false} TextBeforeTotal(a: string, b: string)
    ensures TextBefore(a, b) || TextBefore(b, a) || a == b
    ensures !(TextBefore(a, b) && TextBefore(b, a)) && !TextBefore(a, a)
  {
    if a != "" {
      TextBeforeTotal(a[1..], a[1..]);
    }
    if a != "" && b != "" && a[0] == b[0] {
      TextBeforeTotal(a[1..], b[1..]);
      assert a == [a[0]] + a[1..] && b == [b[0]] + b[1..];
    }
  }

  /** a is a proper beginning of b, or smaller where they first differ. */
  ghost predicate Precedes(a: string, b: string)
  {
    exists k: nat :: k <= |a| && k < |b| && a[..k] == b[..k] && (k == |a| || a[k] < b[k])
  }

  lemma {:induction false} TextBeforeExact(a: string, b: string)
    ensures TextBefore(a, b) <==> Precedes(a, b)
  {
    if a != "" && b != "" && a[0] == b[0] {
      TextBeforeExact(a[1..], b[1..]);
      if k: nat :| k <= |a| && k < |b| && a[..k] == b[..k] && (k == |a| || a[k] < b[k]) {
        assert k > 0;
        assert a[1..][..k - 1] == a[..k][1..] && b[1..][..k - 1] == b[..k][1..];
        assert k < |a| ==> a[1..][k - 1] == a[k];
        assert b[1..][k - 1] == b[k];
      }
      if k: nat :| k <= |a[1..]| && k < |b[1..]| && a[1..][..k] == b[1..][..k] &&
                   (k == |a[1..]| || a[1..][k] < b[1..][k]) {
        assert a[..k + 1] == [a[0]] + a[1..][..k] && b[..k + 1] == [b[0]] + b[1..][..k];
        assert Precedes(a, b);
      }
    } else {
      FirstDiffers(a, b);
    }
  }

  lemma FirstDiffers(a: string, b: string)
    requires a == "" || b == "" || a[0] != b[0]
    ensures Precedes(a, b) <==> b != "" && (a == "" || a[0] < b[0])
  {
    if b != "" && (a == "" || a[0] < b[0]) {
      assert a[..0] == b[..0];
    }
    forall k: nat | 0 < k <= |a| && k <= |b| ensures a[..k] != b[..k] {
      assert a[..k][0] == a[0] && b[..k][0] == b[0];
    }
  }

  lemma {:induction false} PrefixIrrelevant(prefix: string, a: string, b: string)
    ensures TextBefore(prefix + a, prefix + b) <==> TextBefore(a, b)
  {
    if prefix == "" {
      assert prefix + a == a && prefix + b == b;
    } else {
      PrefixIrrelevant(prefix[1..], a, b);
      assert (prefix + a)[1..] == prefix[1..] + a && (prefix + b)[1..] == prefix[1..] + b;
    }
  }

  function RefText(doc: Document): string
  {
    doc.repository + "@" + doc.digest
  }

  /** a sorts before b: it is newer or, at the same age, its reference comes first. */
  predicate Newer(a: Document, b: Document)
  {
    a.updated > b.updated || (a.updated == b.updated && TextBefore(RefText(a), RefText(b)))
  }

  /** Within a repository: updated later or, at the same time, of a digest that comes first. */
  lemma NewerExact(a: Document, b: Document)
    requires a.repository == b.repository
    ensures Newer(a, b) <==> a.updated > b.updated || (a.updated == b.updated && Precedes(a.digest, b.digest))
  {
    hide TextBefore, Precedes;
    PrefixIrrelevant(a.repository + "@", a.digest, b.digest);
    TextBeforeExact(a.digest, b.digest);
  }

  lemma NewerTransitive(a: Document, b: Document, c: Document)
    requires Newer(a, b) && Newer(b, c)
    ensures Newer(a, c)
  {
    if a.updated == b.updated == c.updated {
      TextBeforeTransitive(RefText(a), RefText(b), RefText(c));
    }
  }

  /** Within a repository, different manifests are never tied. */
  lemma NewerTotal(a: Document, b: Document)
    requires a.repository == b.repository
    ensures Newer(a, b) || Newer(b, a) || a.digest == b.digest
    ensures !(Newer(a, b) && Newer(b, a)) && !Newer(a, a)
  {
    TextBeforeTotal(RefText(a), RefText(b));
    TextBeforeTotal(RefText(a), RefText(a));
    var prefix := a.repository + "@";
    if RefText(a) == RefText(b) {
      assert RefText(a)[|prefix|..] == a.digest && RefText(b)[|prefix|..] == b.digest;
    }
  }

  // ----- sorting

  ghost predicate NewestFirst(s: seq<Manifest>)
  {
    forall i, j | 0 <= i < j < |s| :: !Newer(s[j].doc, s[i].doc)
  }

  function Insert(m: Manifest, s: seq<Manifest>): (r: seq<Manifest>)
    ensures |r| == |s| + 1
    ensures forall x :: x in r <==> x == m || x in s
  {
    if s == [] || Newer(m.doc, s[0].doc) then [m] + s
    else
      assert s == [s[0]] + s[1..];
      [s[0]] + Insert(m, s[1..])
  }

  lemma {:induction false} InsertOrdered(m: Manifest, s: seq<Manifest>)
    requires NewestFirst(s) && forall i | 0 <= i < |s| :: s[i].doc.repository == m.doc.repository
    ensures NewestFirst(Insert(m, s))
  {
    if s != [] && !Newer(m.doc, s[0].doc) {
      InsertOrdered(m, s[1..]);
      var r := Insert(m, s[1..]);
      forall j | 0 <= j < |r| ensures !Newer(r[j].doc, s[0].doc) {
        assert r[j] in r;
      }
    } else if s != [] {
      forall j | 0 <= j < |s| ensures !Newer(s[j].doc, m.doc) {
        if Newer(s[j].doc, m.doc) {
          NewerTransitive(s[j].doc, m.doc, s[0].doc);
          NewerTotal(s[0].doc, s[0].doc);
          assert false;
        }
      }
    }
  }

  /** The library sort by byNewest. */
  function SortNewest(s: seq<Manifest>): (r: seq<Manifest>)
    ensures |r| == |s|
    ensures forall x :: x in r <==> x in s
  {
    if s == [] then []
    else
      assert s == [s[0]] + s[1..];
      Insert(s[0], SortNewest(s[1..]))
  }

  lemma {:induction false} SortOrdered(s: seq<Manifest>)
    requires forall i, j | 0 <= i < |s| && 0 <= j < |s| :: s[i].doc.repository == s[j].doc.repository
    ensures NewestFirst(SortNewest(s))
  {
    if s != [] {
      SortOrdered(s[1..]);
      var r := SortNewest(s[1..]);
      forall i | 0 <= i < |r| ensures r[i].doc.repository == s[0].doc.repository {
        assert r[i] in r;
      }
      InsertOrdered(s[0], r);
    }
  }

  ghost predicate DistinctDigests(s: seq<Manifest>)
  {
    forall i, j | 0 <= i < j < |s| :: s[i].doc.digest != s[j].doc.digest
  }

  lemma {:induction false} InsertDistinct(m: Manifest, s: seq<Manifest>)
    requires DistinctDigests(s) && forall i | 0 <= i < |s| :: s[i].doc.digest != m.doc.digest
    ensures DistinctDigests(Insert(m, s))
  {
    if s != [] && !Newer(m.doc, s[0].doc) {
      InsertDistinct(m, s[1..]);
      var r := Insert(m, s[1..]);
      forall i | 0 <= i < |r| ensures r[i].doc.digest != s[0].doc.digest {
        assert r[i] in r;
        if r[i] != m {
          var k :| 0 <= k < |s[1..]| && s[1..][k] == r[i];
          assert s[k + 1] == r[i];
        }
      }
    }
  }

  lemma {:induction false} SortDistinct(s: seq<Manifest>)
    requires DistinctDigests(s)
    ensures DistinctDigests(SortNewest(s))
  {
    if s != [] {
      SortDistinct(s[1..]);
      var r := SortNewest(s[1..]);
      forall i | 0 <= i < |r| ensures r[i].doc.digest != s[0].doc.digest {
        assert r[i] in r;
        var k :| 0 <= k < |s[1..]| && s[1..][k] == r[i];
        assert s[k + 1] == r[i];
      }
      InsertDistinct(s[0], r);
    }
  }

  // ----- positions

  /** How many manifests of the set come before d. */
  ghost function Position(docs: Docs, s: set<Digest>, d: Digest): nat
    requires s <= docs.Keys && d in docs
  {
    |set x | x in s && Newer(docs[x], docs[d])|
  }

  ghost predicate Oldest(docs: Docs, s: set<Digest>, d: Digest)
    requires s <= docs.Keys
  {
    d in s && forall x | x in s && x != d :: Newer(docs[x], docs[d])
  }

  lemma {:induction false} OldestExists(docs: Docs, s: set<Digest>) returns (d: Digest)
    requires WellKeyedDocs(docs) && s <= docs.Keys && s != {}
    ensures Oldest(docs, s, d)
  {
    var x :| x in s;
    if s == {x} {
      d := x;
    } else {
      var y := OldestExists(docs, s - {x});
      NewerTotal(docs[x], docs[y]);
      if Newer(docs[x], docs[y]) {
        d := y;
      } else {
        d := x;
        forall z | z in s && z != d ensures Newer(docs[z], docs[d]) {
          if z != y {
            NewerTransitive(docs[z], docs[y], docs[x]);
          }
        }
      }
    }
  }

  /** Dropping the oldest changes no other position; its own is the last. */
  lemma OldestPosition(docs: Docs, s: set<Digest>, d: Digest)
    requires WellKeyedDocs(docs) && s <= docs.Keys && Oldest(docs, s, d)
    ensures Position(docs, s, d) == |s| - 1
    ensures forall x | x in s && x != d :: Position(docs, s, x) == Position(docs, s - {d}, x)
  {
    NewerTotal(docs[d], docs[d]);
    assert (set x | x in s && Newer(docs[x], docs[d])) == s - {d};
    forall x | x in s && x != d ensures Position(docs, s, x) == Position(docs, s - {d}, x) {
      NewerTotal(docs[x], docs[d]);
      assert (set y | y in s && Newer(docs[y], docs[x])) == (set y | y in s - {d} && Newer(docs[y], docs[x]));
    }
  }

  /** The manifests at the first n positions. */
  ghost function Newest(docs: Docs, s: set<Digest>, n: int): set<Digest>
    requires s <= docs.Keys
  {
    set d | d in s && Position(docs, s, d) < n
  }

  ghost predicate Taken(docs: Docs, s: set<Digest>, k: nat)
    requires s <= docs.Keys
  {
    exists d | d in s :: Position(docs, s, d) == k
  }

  /** Positions number a set without gaps or ties. */
  lemma {:induction false} PositionsBijective(docs: Docs, s: set<Digest>)
    requires WellKeyedDocs(docs) && s <= docs.Keys
    ensures forall d | d in s :: Position(docs, s, d) < |s|
    ensures forall d, e | d in s && e in s && d != e :: Position(docs, s, d) != Position(docs, s, e)
    ensures forall k: nat | k < |s| :: Taken(docs, s, k)
  {
    if s != {} {
      var d := OldestExists(docs, s);
      var t := s - {d};
      OldestPosition(docs, s, d);
      PositionsBijective(docs, t);
      hide Position;
      forall k: nat | k < |s| ensures Taken(docs, s, k) {
        if k < |t| {
          assert Taken(docs, t, k);
          var e :| e in t && Position(docs, t, e) == k;
          assert Position(docs, s, e) == k;
        } else {
          assert Position(docs, s, d) == k;
        }
      }
    }
  }

  /** The first n positions hold exactly min(n, |s|) manifests. */
  lemma {:induction false} NewestCount(docs: Docs, s: set<Digest>, n: nat)
    requires WellKeyedDocs(docs) && s <= docs.Keys
    ensures |Newest(docs, s, n)| == if n < |s| then n else |s|
  {
    if s == {} {
      assert Newest(docs, s, n) == {};
    } else {
      var d := OldestExists(docs, s);
      OldestPosition(docs, s, d);
      NewestCount(docs, s - {d}, n);
      hide Position;
      if n < |s| {
        assert Newest(docs, s, n) == Newest(docs, s - {d}, n);
      } else {
        PositionsBijective(docs, s);
        assert Newest(docs, s, n) == s;
      }
    }
  }

  /** Newer means a smaller position. */
  lemma PositionOrder(docs: Docs, s: set<Digest>, d: Digest, e: Digest)
    requires WellKeyedDocs(docs) && s <= docs.Keys && d in s && e in s
    ensures Position(docs, s, d) < Position(docs, s, e) <==> Newer(docs[d], docs[e])
  {
    NewerTotal(docs[d], docs[e]);
    if Newer(docs[d], docs[e]) {
      PositionLess(docs, s, d, e);
    } else if Newer(docs[e], docs[d]) {
      PositionLess(docs, s, e, d);
    }
  }

  /** Positions follow the update times, latest first, and at one time the digests. */
  lemma PositionsByTime(docs: Docs, s: set<Digest>, d: Digest, e: Digest)
    requires WellKeyedDocs(docs) && s <= docs.Keys && d in s && e in s
    ensures docs[d].updated > docs[e].updated ==> Position(docs, s, d) < Position(docs, s, e)
    ensures docs[d].updated == docs[e].updated ==>
              (Position(docs, s, d) < Position(docs, s, e) <==> Precedes(d, e))
  {
    PositionOrder(docs, s, d, e);
    NewerExact(docs[d], docs[e]);
    hide Position, Newer, Precedes;
  }

  /** A position counts the manifests updated later, and those of the same time that come first. */
  lemma PositionCounts(docs: Docs, s: set<Digest>, d: Digest)
    requires WellKeyedDocs(docs) && s <= docs.Keys && d in docs
    ensures Position(docs, s, d) ==
            |set x | x in s && (docs[x].updated > docs[d].updated ||
                                (docs[x].updated == docs[d].updated && Precedes(x, d)))|
  {
    forall x | x in s
      ensures Newer(docs[x], docs[d]) <==>
              docs[x].updated > docs[d].updated || (docs[x].updated == docs[d].updated && Precedes(x, d))
    {
      NewerExact(docs[x], docs[d]);
    }
    hide Newer, Precedes;
    assert (set x | x in s && Newer(docs[x], docs[d])) ==
           (set x | x in s && (docs[x].updated > docs[d].updated ||
                               (docs[x].updated == docs[d].updated && Precedes(x, d))));
  }

  lemma PositionLess(docs: Docs, s: set<Digest>, d: Digest, e: Digest)
    requires WellKeyedDocs(docs) && s <= docs.Keys && d in s && e in s && Newer(docs[d], docs[e])
    ensures Position(docs, s, d) < Position(docs, s, e)
  {
    var before, after := set x | x in s && Newer(docs[x], docs[d]), set x | x in s && Newer(docs[x], docs[e]);
    NewerTotal(docs[d], docs[d]);
    forall x | x in before ensures x in after {
      NewerTransitive(docs[x], docs[d], docs[e]);
    }
    SubsetSize(before + {d}, after);
  }
}
