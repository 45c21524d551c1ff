/** Blob sizes and byte counts (validateBlobSizes in internal/registry/fetch.go, calculateStatsSeen
    in internal/pruner/stats.go). */
module BlobBytes {
  import opened Manifests
  import opened Sums

  // ----- blobs in sequence

  function Bytes(blobs: seq<Blob>): nat
  {
    if blobs == [] then 0 else Bytes(blobs[..|blobs| - 1]) + blobs[|blobs| - 1].size
  }

  /** The bytes of blobs without a digest, which are never known to be repeats. */
  function Anonymous(blobs: seq<Blob>): nat
  {
    if blobs == [] then 0 else
    var last := blobs[|blobs| - 1];
    Anonymous(blobs[..|blobs| - 1]) + if last.digest == "" then last.size else 0
  }

  ghost function Named(blobs: seq<Blob>): set<Digest>
  {
    set i | 0 <= i < |blobs| && blobs[i].digest != "" :: blobs[i].digest
  }

  ghost predicate Agree(blobs: seq<Blob>, sizes: Digest -> nat)
  {
    forall i | 0 <= i < |blobs| :: sizes(blobs[i].digest) == blobs[i].size
  }

  lemma BlobStep(blobs: seq<Blob>, j: nat)
    requires j < |blobs|
    ensures Bytes(blobs[..j + 1]) == Bytes(blobs[..j]) + blobs[j].size
    ensures Anonymous(blobs[..j + 1]) == Anonymous(blobs[..j]) + if blobs[j].digest == "" then blobs[j].size else 0
    ensures Named(blobs[..j + 1]) == Named(blobs[..j]) + if blobs[j].digest == "" then {} else {blobs[j].digest}
  {
    assert blobs[..j + 1][..j] == blobs[..j];
    var after := blobs[..j + 1];
    assert forall i | 0 <= i < j :: after[i] == blobs[..j][i];
    assert after[j] == blobs[j];
  }

  lemma {:induction false} BytesAppend(a: seq<Blob>, b: seq<Blob>)
    ensures Bytes(a + b) == Bytes(a) + Bytes(b)
    ensures Anonymous(a + b) == Anonymous(a) + Anonymous(b)
  {
    if b == [] {
      assert a + b == a;
    } else {
      BytesAppend(a, b[..|b| - 1]);
      assert (a + b)[..|a + b| - 1] == a + b[..|b| - 1];
    }
  }

  /** Counting each named blob once never exceeds the bytes. */
  lemma {:induction false} DistinctBytes(blobs: seq<Blob>, sizes: Digest -> nat)
    requires Agree(blobs, sizes)
    ensures Sum(Named(blobs), sizes) + Anonymous(blobs) <= Bytes(blobs)
  {
    if blobs != [] {
      var last := |blobs| - 1;
      DistinctBytes(blobs[..last], sizes);
      BlobStep(blobs, last);
      assert blobs[..last + 1] == blobs;
      hide Named, Bytes, Anonymous;
      var d := blobs[last].digest;
      if d != "" {
        if d in Named(blobs[..last]) {
          assert Named(blobs) == Named(blobs[..last]);
        } else {
          SumAdd(Named(blobs[..last]), sizes, d);
        }
      } else {
        assert Named(blobs) == Named(blobs[..last]);
      }
    }
  }

  /** A document counts with its own size, that of its config and those of its layers. */
  lemma DocumentBytes(doc: Document)
    ensures Bytes(doc.Blobs()) == doc.size + (if doc.config.Some? then doc.config.value.size else 0) + Bytes(doc.layers)
    ensures forall d :: d in Named(doc.Blobs()) <==>
              d != "" && (d == doc.digest || (doc.config.Some? && d == doc.config.value.digest) ||
                          exists l :: l in doc.layers && l.digest == d)
  {
    var config := if doc.config.Some? then [doc.config.value] else [];
    BytesAppend([Blob(doc.digest, doc.size)] + config, doc.layers);
    BytesAppend([Blob(doc.digest, doc.size)], config);
    BlobsExact(doc);
    NamedExact(doc.Blobs());
  }

  lemma NamedExact(blobs: seq<Blob>)
    ensures forall d :: d in Named(blobs) <==> d != "" && exists b :: b in blobs && b.digest == d
  {
    forall d | d != "" && exists b :: b in blobs && b.digest == d ensures d in Named(blobs) {
      var b :| b in blobs && b.digest == d;
      var i :| 0 <= i < |blobs| && blobs[i] == b;
    }
  }

  // ----- validation

  /** Every digest has one size throughout the repository. */
  ghost predicate Consistent(docs: Docs)
  {
    forall d, e, b, c |
      d in docs && e in docs && b in docs[d].Blobs() && c in docs[e].Blobs() && b.digest == c.digest ::
      b.size == c.size
  }

  ghost function Weight(docs: Docs): Digest -> nat
  {
    d => if d in docs then Bytes(docs[d].Blobs()) else 0
  }

  ghost function GrandTotal(docs: Docs): nat
  {
    Sum(docs.Keys, Weight(docs))
  }

  /** The sizes recorded are those of exactly the blobs visited, which agree. */
  ghost predicate Sized(visited: set<Blob>, sizes: map<Digest, nat>)
  {
    && (forall b | b in visited :: b.digest in sizes && sizes[b.digest] == b.size)
    && (forall d | d in sizes :: SizedBy(visited, d))
  }

  ghost predicate SizedBy(visited: set<Blob>, d: Digest)
  {
    exists b | b in visited :: b.digest == d
  }

  ghost function BlobSet(docs: Docs, s: set<Digest>): set<Blob>
  {
    set d, b | d in s && d in docs && b in docs[d].Blobs() :: b
  }

  lemma SizedStep(visited: set<Blob>, sizes: map<Digest, nat>, b: Blob)
    requires Sized(visited, sizes) && (b.digest in sizes ==> sizes[b.digest] == b.size)
    ensures Sized(visited + {b}, sizes[b.digest := b.size])
  {
    forall d | d in sizes[b.digest := b.size] ensures SizedBy(visited + {b}, d) {
      if d != b.digest {
        assert SizedBy(visited, d);
        var c :| c in visited && c.digest == d;
        assert c in visited + {b};
      } else {
        assert b in visited + {b};
      }
    }
  }

  lemma SizedClash(docs: Docs, visited: set<Blob>, sizes: map<Digest, nat>, d: Digest, b: Blob)
    requires Sized(visited, sizes) && visited <= BlobSet(docs, docs.Keys) && d in docs && b in docs[d].Blobs()
    requires b.digest in sizes && sizes[b.digest] != b.size
    ensures !Consistent(docs)
  {
    assert SizedBy(visited, b.digest);
    var c :| c in visited && c.digest == b.digest;
    var e :| e in docs && c in docs[e].Blobs();
  }

  lemma SizedConsistent(docs: Docs, sizes: map<Digest, nat>)
    requires Sized(BlobSet(docs, docs.Keys), sizes)
    ensures Consistent(docs)
  {
    forall d, e, b, c | d in docs && e in docs && b in docs[d].Blobs() && c in docs[e].Blobs() && b.digest == c.digest
      ensures b.size == c.size
    {
      assert b in BlobSet(docs, docs.Keys) && c in BlobSet(docs, docs.Keys);
    }
  }

  lemma WeightStep(docs: Docs, done: set<Digest>, d: Digest)
    requires done <= docs.Keys && d in docs && d !in done
    ensures Sum(done + {d}, Weight(docs)) == Sum(done, Weight(docs)) + Bytes(docs[d].Blobs())
    ensures Sum(done + {d}, Weight(docs)) <= GrandTotal(docs)
  {
    SumAdd(done, Weight(docs), d);
    SumSubset(done + {d}, docs.Keys, Weight(docs));
  }

  lemma BlobSetStep(docs: Docs, done: set<Digest>, d: Digest)
    requires d in docs
    ensures BlobSet(docs, done + {d}) == BlobSet(docs, done) + Elements(docs[d].Blobs())
  {
  }

  /** Adds the blobs of one manifest. */
  method ValidateOne(ghost docs: Docs, ghost done: set<Digest>, d: Digest, blobs: seq<Blob>, sizes: map<Digest, nat>,
                     total: uint64)
    returns (ok: bool, sizes': map<Digest, nat>, total': uint64)
    requires d in docs && blobs == docs[d].Blobs() && done <= docs.Keys && d !in done
    requires Sized(BlobSet(docs, done), sizes) && total == Sum(done, Weight(docs))
    ensures ok ==> Sized(BlobSet(docs, done + {d}), sizes') && total' == Sum(done + {d}, Weight(docs))
    ensures !ok ==> !Consistent(docs) || GrandTotal(docs) >= U64
  {
    hide *;
    WeightStep(docs, done, d);
    PrefixStart(docs, done, d);
    sizes', total' := sizes, total;
    var j := 0;
    while j < |blobs|
      invariant j <= |blobs| && Sized(Prefix(docs, done, d, j), sizes')
      invariant total' == total + Bytes(blobs[..j])
    {
      var b := blobs[j];
      BlobStep(blobs, j);
      BytesWithin(blobs, j + 1);
      PrefixStep(docs, done, d, j);
      if b.digest in sizes' && sizes'[b.digest] != b.size {
        SizedClash(docs, Prefix(docs, done, d, j), sizes', d, b);
        return false, sizes', total';
      }
      SizedStep(Prefix(docs, done, d, j), sizes', b);
      sizes' := sizes'[b.digest := b.size];
      if b.size > U64 - 1 - total' {
        return false, sizes', total';
      }
      total' := total' + b.size;
      j := j + 1;
    }
    assert blobs[..j] == blobs;
    ok := true;
  }

  /** The blobs of the manifests done, and the first j of one more. */
  ghost function Prefix(docs: Docs, done: set<Digest>, d: Digest, j: nat): set<Blob>
    requires d in docs && j <= |docs[d].Blobs()|
  {
    BlobSet(docs, done) + Elements(docs[d].Blobs()[..j])
  }

  lemma PrefixStart(docs: Docs, done: set<Digest>, d: Digest)
    requires d in docs
    ensures Prefix(docs, done, d, 0) == BlobSet(docs, done)
    ensures Prefix(docs, done, d, |docs[d].Blobs()|) == BlobSet(docs, done + {d})
    ensures Bytes(docs[d].Blobs()[..0]) == 0
  {
    BlobSetStep(docs, done, d);
    assert docs[d].Blobs()[..|docs[d].Blobs()|] == docs[d].Blobs();
  }

  lemma PrefixStep(docs: Docs, done: set<Digest>, d: Digest, j: nat)
    requires done <= docs.Keys && d in docs && j < |docs[d].Blobs()|
    ensures docs[d].Blobs()[j] in docs[d].Blobs()
    ensures Prefix(docs, done, d, j + 1) == Prefix(docs, done, d, j) + {docs[d].Blobs()[j]}
    ensures Prefix(docs, done, d, j) <= BlobSet(docs, docs.Keys)
  {
    var blobs := docs[d].Blobs();
    assert blobs[..j + 1] == blobs[..j] + [blobs[j]];
    assert forall b | b in blobs[..j] :: b in blobs;
  }

  lemma {:induction false} BytesWithin(blobs: seq<Blob>, j: nat)
    requires j <= |blobs|
    ensures Bytes(blobs[..j]) <= Bytes(blobs)
    decreases |blobs| - j
  {
    if j < |blobs| {
      BlobStep(blobs, j);
      BytesWithin(blobs, j + 1);
    } else {
      assert blobs[..j] == blobs;
    }
  }

  /** Accepts exactly the repositories whose blob sizes agree and whose bytes fit 64 bits, in
      whatever order the manifests are visited. */
  method ValidateBlobSizes(docs: Docs) returns (ok: bool)
    ensures ok <==> Consistent(docs) && GrandTotal(docs) < U64
  {
    hide Sized, Consistent, BlobSet, Weight, Sum;
    var sizes: map<Digest, nat>, total: uint64 := map[], 0;
    ghost var done := {};
    NothingSized(docs);
    var todo := docs.Keys;
    while todo != {}
      invariant todo <= docs.Keys && done == docs.Keys - todo
      invariant Sized(BlobSet(docs, done), sizes) && total == Sum(done, Weight(docs))
      decreases todo
    {
      var d :| d in todo;
      ok, sizes, total := ValidateOne(docs, done, d, docs[d].Blobs(), sizes, total);
      if !ok {
        return;
      }
      todo, done := todo - {d}, done + {d};
    }
    assert done == docs.Keys;
    SizedConsistent(docs, sizes);
    ok := true;
  }

  lemma NothingSized(docs: Docs)
    ensures Sized(BlobSet(docs, {}), map[]) && Sum({}, Weight(docs)) == 0
  {
  }
}
