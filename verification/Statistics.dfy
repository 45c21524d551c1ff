/** Unique and total bytes of a list of manifests (calculateStatsSeen in internal/pruner/stats.go),
    and what a deletion frees. */
module Statistics {
  import opened Manifests
  import opened Sums
  import opened BlobBytes

  function BlobsOf(list: seq<Document>): seq<Blob>
  {
    if list == [] then [] else BlobsOf(list[..|list| - 1]) + list[|list| - 1].Blobs()
  }

  lemma BlobsStep(list: seq<Document>, i: nat)
    requires i < |list|
    ensures BlobsOf(list[..i + 1]) == BlobsOf(list[..i]) + list[i].Blobs()
  {
    assert list[..i + 1][..i] == list[..i];
  }

  /** 64-bit addition. */
  function Wrapped(a: nat, b: nat): uint64
  {
    (a + b) % U64
  }

  lemma WrapStep(a: nat, size: nat)
    ensures Wrapped(a % U64, size) == (a + size) % U64
  {
  }

  /** The bytes to count for blobs of which those seen are known. */
  ghost function NewBytes(blobs: seq<Blob>, seen: set<Digest>, sizes: Digest -> nat): nat
  {
    Sum(Named(blobs) - seen, sizes) + Anonymous(blobs)
  }

  /** The size with which a digest first occurs. */
  function FirstSize(blobs: seq<Blob>, d: Digest): nat
  {
    if blobs == [] then 0
    else if blobs[0].digest == d then blobs[0].size
    else FirstSize(blobs[1..], d)
  }

  ghost function FirstSizes(blobs: seq<Blob>): Digest -> nat
  {
    d => FirstSize(blobs, d)
  }

  /** A blob that no earlier one repeats gives its digest its size. */
  lemma {:induction false} FirstAt(blobs: seq<Blob>, j: nat)
    requires j < |blobs| && forall i | 0 <= i < j :: blobs[i].digest != blobs[j].digest
    ensures FirstSize(blobs, blobs[j].digest) == blobs[j].size
  {
    if j > 0 {
      assert blobs[1..][j - 1] == blobs[j];
      FirstAt(blobs[1..], j - 1);
    }
  }

  lemma FirstNew(blobs: seq<Blob>, j: nat)
    requires j < |blobs| && blobs[j].digest != "" && blobs[j].digest !in Named(blobs[..j])
    ensures FirstSizes(blobs)(blobs[j].digest) == blobs[j].size
  {
    forall i | 0 <= i < j ensures blobs[i].digest != blobs[j].digest {
      assert blobs[..j][i] == blobs[i];
    }
    FirstAt(blobs, j);
  }

  /** Where every digest has one size, that is the first. */
  lemma {:induction false} FirstAgrees(blobs: seq<Blob>, sizes: Digest -> nat, d: Digest)
    requires Agree(blobs, sizes) && d in Named(blobs)
    ensures FirstSize(blobs, d) == sizes(d)
  {
    if blobs[0].digest != d {
      var i :| 0 <= i < |blobs| && blobs[i].digest == d;
      assert blobs[1..][i - 1] == blobs[i];
      assert d in Named(blobs[1..]);
      FirstAgrees(blobs[1..], sizes, d);
    }
  }

  lemma NewAgrees(blobs: seq<Blob>, seen: set<Digest>, sizes: Digest -> nat)
    requires Agree(blobs, sizes)
    ensures NewBytes(blobs, seen, FirstSizes(blobs)) == NewBytes(blobs, seen, sizes)
  {
    forall d | d in Named(blobs) - seen ensures FirstSizes(blobs)(d) == sizes(d) {
      FirstAgrees(blobs, sizes, d);
    }
    hide Named, FirstSize, Agree;
    SumSame(Named(blobs) - seen, FirstSizes(blobs), sizes);
  }

  lemma NewStep(blobs: seq<Blob>, j: nat, seen: set<Digest>)
    requires j < |blobs|
    ensures Named(blobs[..j + 1]) == Named(blobs[..j]) + if blobs[j].digest == "" then {} else {blobs[j].digest}
    ensures NewBytes(blobs[..j + 1], seen, FirstSizes(blobs)) ==
            NewBytes(blobs[..j], seen, FirstSizes(blobs)) +
            if blobs[j].digest != "" && blobs[j].digest in seen + Named(blobs[..j]) then 0 else blobs[j].size
  {
    BlobStep(blobs, j);
    var d := blobs[j].digest;
    if d != "" && d !in Named(blobs[..j]) {
      FirstNew(blobs, j);
    }
    hide Named, Anonymous, FirstSizes;
    var before, after := Named(blobs[..j]) - seen, Named(blobs[..j + 1]) - seen;
    if d == "" || d in seen + Named(blobs[..j]) {
      assert after == before;
    } else {
      assert after == before + {d};
      SumAdd(before, FirstSizes(blobs), d);
    }
  }

  /** Takes in one blob after another, in 64-bit arithmetic. A digest counts with the size it first
      occurs with, should it have several. */
  method CountBlobs(blobs: seq<Blob>, seen: set<Digest>) returns (unique: uint64, total: uint64, seen': set<Digest>)
    ensures unique == NewBytes(blobs, seen, FirstSizes(blobs)) % U64 && total == Bytes(blobs) % U64
    ensures seen' == seen + Named(blobs)
  {
    hide Named, Anonymous, Bytes, NewBytes, Wrapped, FirstSizes;
    unique, total, seen' := 0, 0, seen;
    NothingNew(blobs, seen, FirstSizes(blobs));
    var j := 0;
    while j < |blobs|
      invariant j <= |blobs|
      invariant unique == NewBytes(blobs[..j], seen, FirstSizes(blobs)) % U64 && total == Bytes(blobs[..j]) % U64
      invariant seen' == seen + Named(blobs[..j])
    {
      var b := blobs[j];
      NewStep(blobs, j, seen);
      BlobStep(blobs, j);
      WrapStep(Bytes(blobs[..j]), b.size);
      WrapStep(NewBytes(blobs[..j], seen, FirstSizes(blobs)), b.size);
      total := Wrapped(total, b.size);
      if b.digest == "" || b.digest !in seen' {
        unique := Wrapped(unique, b.size);
        if b.digest != "" {
          seen' := seen' + {b.digest};
        }
      }
      j := j + 1;
    }
    assert blobs[..j] == blobs;
  }

  lemma NothingNew(blobs: seq<Blob>, seen: set<Digest>, sizes: Digest -> nat)
    ensures NewBytes(blobs[..0], seen, sizes) == 0 && Bytes(blobs[..0]) == 0 && Named(blobs[..0]) == {}
  {
  }

  // ----- the bytes of a set of manifests

  ghost predicate HasSize(docs: Docs, d: Digest, b: Blob)
  {
    b.digest == d && InSome(docs, b)
  }

  ghost predicate InSome(docs: Docs, b: Blob)
  {
    exists e :: e in docs && b in docs[e].Blobs()
  }

  lemma SameSize(docs: Docs, b: Blob, c: Blob)
    requires Consistent(docs) && InSome(docs, b) && InSome(docs, c) && b.digest == c.digest
    ensures b.size == c.size
  {
    hide Document.Blobs;
    var d :| d in docs && b in docs[d].Blobs();
    var e :| e in docs && c in docs[e].Blobs();
  }

  ghost function SizeAt(docs: Docs, d: Digest): nat
  {
    if b :| HasSize(docs, d, b) then b.size else 0
  }

  ghost function SizeIn(docs: Docs): Digest -> nat
  {
    d => SizeAt(docs, d)
  }

  /** The digests of the blobs the manifests reference. */
  ghost function NamedIn(docs: Docs, s: set<Digest>): set<Digest>
  {
    set d, x | d in s && d in docs && x in Named(docs[d].Blobs()) :: x
  }

  ghost function Unnamed(docs: Docs): Digest -> nat
  {
    d => if d in docs then Anonymous(docs[d].Blobs()) else 0
  }

  /** Every blob once, and every blob without a digest each time. */
  ghost function UniqueBytes(docs: Docs, s: set<Digest>): nat
  {
    Sum(NamedIn(docs, s), SizeIn(docs)) + Sum(s, Unnamed(docs))
  }

  lemma HasSizeAt(docs: Docs, d: Digest, b: Blob)
    requires d in docs && b in docs[d].Blobs()
    ensures HasSize(docs, b.digest, b)
  {
    hide Document.Blobs;
  }

  lemma HasSizeMeans(docs: Docs, d: Digest, b: Blob)
    requires HasSize(docs, d, b)
    ensures b.digest == d && InSome(docs, b)
  {
  }

  lemma SizeAtOf(docs: Docs, d: Digest, b: Blob) returns (c: Blob)
    requires HasSize(docs, d, b)
    ensures HasSize(docs, d, c) && SizeAt(docs, d) == c.size
  {
    hide HasSize;
    c :| HasSize(docs, d, c) && SizeAt(docs, d) == c.size;
  }

  lemma SizeOne(docs: Docs, d: Digest, b: Blob)
    requires Consistent(docs) && d in docs && b in docs[d].Blobs()
    ensures SizeAt(docs, b.digest) == b.size
  {
    hide *;
    HasSizeAt(docs, d, b);
    HasSizeMeans(docs, b.digest, b);
    var c := SizeAtOf(docs, b.digest, b);
    HasSizeMeans(docs, b.digest, c);
    SameSize(docs, b, c);
  }

  lemma SizeAgrees(docs: Docs, d: Digest)
    requires Consistent(docs) && d in docs
    ensures Agree(docs[d].Blobs(), SizeIn(docs))
  {
    hide Document.Blobs, SizeAt, Consistent;
    var blobs := docs[d].Blobs();
    forall i | 0 <= i < |blobs| ensures SizeIn(docs)(blobs[i].digest) == blobs[i].size {
      assert blobs[i] in blobs;
      SizeOne(docs, d, blobs[i]);
    }
  }

  ghost function DigestSet(list: seq<Document>): set<Digest>
  {
    set i | 0 <= i < |list| :: list[i].digest
  }

  /** The list holds manifests of the repository, each once. */
  ghost predicate Sublist(docs: Docs, list: seq<Document>)
  {
    && (forall i | 0 <= i < |list| :: list[i].digest in docs && docs[list[i].digest] == list[i])
    && (forall i, j | 0 <= i < j < |list| :: list[i].digest != list[j].digest)
  }

  lemma DigestSetStep(list: seq<Document>)
    requires list != []
    ensures DigestSet(list) == DigestSet(list[..|list| - 1]) + {list[|list| - 1].digest}
  {
    var last := |list| - 1;
    assert forall i | 0 <= i < last :: list[..last][i] == list[i];
  }

  lemma NamedInStep(docs: Docs, s: set<Digest>, d: Digest)
    requires d in docs
    ensures NamedIn(docs, s + {d}) == NamedIn(docs, s) + Named(docs[d].Blobs())
  {
    hide Named;
  }

  lemma NamedAppend(a: seq<Blob>, b: seq<Blob>)
    ensures Named(a + b) == Named(a) + Named(b)
  {
    forall x | x in Named(a) ensures x in Named(a + b) {
      var i :| 0 <= i < |a| && a[i].digest != "" && a[i].digest == x;
      assert (a + b)[i] == a[i];
    }
    forall x | x in Named(b) ensures x in Named(a + b) {
      var i :| 0 <= i < |b| && b[i].digest != "" && b[i].digest == x;
      assert (a + b)[|a| + i] == b[i];
    }
  }

  lemma NoList(docs: Docs)
    ensures Agree(BlobsOf([]), SizeIn(docs)) && Named(BlobsOf([])) == NamedIn(docs, DigestSet([]))
    ensures Anonymous(BlobsOf([])) == Sum(DigestSet([]), Unnamed(docs)) &&
            Bytes(BlobsOf([])) == Sum(DigestSet([]), Weight(docs))
  {
    assert DigestSet([]) == {};
  }

  lemma WeightsAt(docs: Docs, d: Digest)
    requires d in docs
    ensures Unnamed(docs)(d) == Anonymous(docs[d].Blobs()) && Weight(docs)(d) == Bytes(docs[d].Blobs())
  {
  }

  /** The blobs of a list, in terms of the set of its manifests. */
  lemma {:induction false} ListBytes(docs: Docs, list: seq<Document>)
    requires Consistent(docs) && Sublist(docs, list)
    ensures Agree(BlobsOf(list), SizeIn(docs))
    ensures Named(BlobsOf(list)) == NamedIn(docs, DigestSet(list))
    ensures Anonymous(BlobsOf(list)) == Sum(DigestSet(list), Unnamed(docs))
    ensures Bytes(BlobsOf(list)) == Sum(DigestSet(list), Weight(docs))
  {
    hide *;
    if list == [] {
      NoList(docs);
    } else {
      var last := |list| - 1;
      var before, d := list[..last], list[last].digest;
      NewDigest(docs, list);
      BlobsStep(list, last);
      assert list[..last + 1] == list;
      ListBytes(docs, before);
      DigestSetStep(list);
      SizeAgrees(docs, d);
      NamedInStep(docs, DigestSet(before), d);
      NamedAppend(BlobsOf(before), docs[d].Blobs());
      BytesAppend(BlobsOf(before), docs[d].Blobs());
      WeightsAt(docs, d);
      SumAdd(DigestSet(before), Unnamed(docs), d);
      SumAdd(DigestSet(before), Weight(docs), d);
      AgreeAppend(BlobsOf(before), docs[d].Blobs(), SizeIn(docs));
    }
  }

  lemma NewDigest(docs: Docs, list: seq<Document>)
    requires list != [] && Sublist(docs, list)
    ensures list[|list| - 1].digest in docs && docs[list[|list| - 1].digest] == list[|list| - 1]
    ensures list[|list| - 1].digest !in DigestSet(list[..|list| - 1])
    ensures Sublist(docs, list[..|list| - 1])
  {
  }

  lemma AgreeAppend(a: seq<Blob>, b: seq<Blob>, sizes: Digest -> nat)
    requires Agree(a, sizes) && Agree(b, sizes)
    ensures Agree(a + b, sizes)
  {
  }

  lemma ListWithin(docs: Docs, list: seq<Document>)
    requires Sublist(docs, list)
    ensures DigestSet(list) <= docs.Keys
  {
  }

  /** Of a validated repository, the counts are exact, whatever the order of the list: every blob
      once, and every reference. Nothing wraps. */
  method CalculateStats(list: seq<Document>, ghost docs: Docs) returns (unique: uint64, total: uint64)
    requires Consistent(docs) && GrandTotal(docs) < U64 && Sublist(docs, list)
    ensures unique == UniqueBytes(docs, DigestSet(list))
    ensures total == Sum(DigestSet(list), Weight(docs))
    ensures unique <= total
  {
    hide *;
    ghost var blobs, sizes := BlobsOf(list), SizeIn(docs);
    FitsBytes(docs, list);
    var seen;
    NewAgrees(blobs, {}, sizes);
    unique, total, seen := CountBlobs(BlobsOf(list), {});
    Fits(UniqueBytes(docs, DigestSet(list)));
    Fits(Bytes(blobs));
  }

  lemma Fits(n: nat)
    requires n < U64
    ensures n % U64 == n
  {
  }

  lemma UniqueNew(docs: Docs, list: seq<Document>)
    requires Named(BlobsOf(list)) == NamedIn(docs, DigestSet(list))
    requires Anonymous(BlobsOf(list)) == Sum(DigestSet(list), Unnamed(docs))
    ensures NewBytes(BlobsOf(list), {}, SizeIn(docs)) == UniqueBytes(docs, DigestSet(list))
    ensures UniqueBytes(docs, DigestSet(list)) == Sum(Named(BlobsOf(list)), SizeIn(docs)) + Anonymous(BlobsOf(list))
  {
    hide Named, NamedIn, BlobsOf, Anonymous, Unnamed, DigestSet, SizeIn, Sum;
    assert Named(BlobsOf(list)) - {} == Named(BlobsOf(list));
  }

  lemma TotalMeans(docs: Docs)
    ensures GrandTotal(docs) == Sum(docs.Keys, Weight(docs))
  {
  }

  lemma FitsBytes(docs: Docs, list: seq<Document>)
    requires Consistent(docs) && GrandTotal(docs) < U64 && Sublist(docs, list)
    ensures Agree(BlobsOf(list), SizeIn(docs))
    ensures NewBytes(BlobsOf(list), {}, SizeIn(docs)) == UniqueBytes(docs, DigestSet(list))
    ensures UniqueBytes(docs, DigestSet(list)) <= Bytes(BlobsOf(list)) < U64
    ensures Bytes(BlobsOf(list)) == Sum(DigestSet(list), Weight(docs))
  {
    hide *;
    ListBytes(docs, list);
    ListWithin(docs, list);
    TotalMeans(docs);
    SumSubset(DigestSet(list), docs.Keys, Weight(docs));
    DistinctBytes(BlobsOf(list), SizeIn(docs));
    UniqueNew(docs, list);
  }

  // ----- what deleting frees

  /** Seen minus kept is exactly the size of the blobs no remaining manifest references. */
  lemma FreedBytes(docs: Docs, all: set<Digest>, kept: set<Digest>)
    requires kept <= all
    ensures UniqueBytes(docs, kept) <= UniqueBytes(docs, all)
    ensures UniqueBytes(docs, all) - UniqueBytes(docs, kept) ==
            Sum(NamedIn(docs, all) - NamedIn(docs, kept), SizeIn(docs)) + Sum(all - kept, Unnamed(docs))
  {
    assert NamedIn(docs, kept) <= NamedIn(docs, all);
    SumSubset(NamedIn(docs, kept), NamedIn(docs, all), SizeIn(docs));
    SumSubset(kept, all, Unnamed(docs));
  }
}
