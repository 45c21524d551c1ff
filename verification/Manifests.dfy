/** The shared vocabulary: manifest documents, what a pass records about them, and the
    reference graph of one repository (internal/registry/manifest.go). */
module Manifests {

  type Digest = string

  datatype Option<+T> = None | Some(value: T)

  const U64: nat := 0x1_0000_0000_0000_0000

  type uint64 = n: nat | n < U64

  datatype Platform = Platform(arch: string, os: string)

  /** An index entry; its platform may be omitted. */
  datatype Descriptor = Descriptor(digest: Digest, platform: Option<Platform>)

  datatype Blob = Blob(digest: Digest, size: uint64)

  /** The zero time: the registry reported no update time. */
  const UNKNOWN_TIME := 0

  /** What identifies a manifest across repositories. */
  datatype Ref = Ref(repository: string, digest: Digest)

  /** The part of a manifest that is fixed once it has been fetched. */
  datatype Document = Document(
    repository: string,
    digest: Digest,
    tags: seq<string>,
    updated: int,
    platform: Platform,
    locked: bool,
    children: seq<Descriptor>,
    subject: Option<Digest>,
    tagSubject: Digest,
    size: uint64,
    config: Option<Blob>,
    layers: seq<Blob>)
  {
    /** The digest this manifest refers to, "" when it is no referrer. */
    function SubjectDigest(): Digest
    {
      if subject.Some? then subject.value else tagSubject
    }

    predicate IsReferrer()
    {
      SubjectDigest() != ""
    }

    function Children(): set<Digest>
    {
      set i | 0 <= i < |children| :: children[i].digest
    }

    /** The digests of the index entries, in order and with repeats. */
    function Entries(): (r: seq<Digest>)
      ensures forall d :: d in r <==> d in Children()
    {
      var r := seq(|children|, i requires 0 <= i < |children| => children[i].digest);
      assert forall i | 0 <= i < |children| :: r[i] == children[i].digest;
      r
    }

    function Reference(): Ref
    {
      Ref(repository, digest)
    }

    /** The document itself, its config and its layers, repeats included. */
    function Blobs(): seq<Blob>
    {
      [Blob(digest, size)] + (if config.Some? then [config.value] else []) + layers
    }
  }

  /** The document names d as its subject or, stating none, carries a tag that names it. */
  ghost predicate Refers(doc: Document, d: Digest)
  {
    d != "" && (doc.subject == Some(d) || (doc.subject.None? && doc.tagSubject == d))
  }

  /** One of the index entries is d. */
  ghost predicate HasChild(doc: Document, d: Digest)
  {
    exists i | 0 <= i < |doc.children| :: doc.children[i].digest == d
  }

  lemma RefersExact(doc: Document)
    ensures forall d :: Refers(doc, d) <==> doc.IsReferrer() && doc.SubjectDigest() == d
    ensures doc.IsReferrer() <==> exists d :: Refers(doc, d)
    ensures forall d :: HasChild(doc, d) <==> d in doc.Children()
  {
    assert doc.IsReferrer() ==> Refers(doc, doc.SubjectDigest());
  }

  /** The blobs of a document are the document itself, its config and its layers. */
  lemma BlobsExact(doc: Document)
    ensures |doc.Blobs()| == 1 + (if doc.config.Some? then 1 else 0) + |doc.layers|
    ensures forall b :: b in doc.Blobs() <==>
              b == Blob(doc.digest, doc.size) || doc.config == Some(b) || b in doc.layers
  {
  }

  /** A manifest as the pruner sees it at one moment: the document and the bookkeeping
      the passes have written so far. */
  datatype Manifest = Manifest(
    doc: Document,
    orphaned: bool,
    hasOwner: bool,
    lockedTags: seq<string>,
    platforms: seq<Platform>)
  {
    predicate IsLocked()
    {
      doc.locked || |lockedTags| > 0
    }

    predicate HasTimestamp()
    {
      doc.updated != UNKNOWN_TIME
    }
  }

  /** The object that stands for a manifest in memory, whose bookkeeping the passes update in place. */
  class Entry {
    const doc: Document
    var orphaned: bool
    var hasOwner: bool
    var lockedTags: seq<string>
    var platforms: seq<Platform>

    constructor (doc: Document)
      ensures this.doc == doc
      ensures !orphaned && !hasOwner && lockedTags == [] && platforms == []
    {
      this.doc := doc;
      orphaned, hasOwner, lockedTags, platforms := false, false, [], [];
    }

    function Get(): Manifest
      reads this
    {
      Manifest(doc, orphaned, hasOwner, lockedTags, platforms)
    }
  }

  type Docs = map<Digest, Document>
  type Repo = map<Digest, Manifest>
  type Entries = map<Digest, Entry>

  /** One repository, each manifest keyed by its own digest. */
  ghost predicate WellKeyedDocs(docs: Docs)
  {
    && (forall d | d in docs :: docs[d].digest == d)
    && (forall d, e | d in docs && e in docs :: docs[d].repository == docs[e].repository)
  }

  ghost predicate WellKeyed(repo: Repo)
  {
    WellKeyedDocs(DocsOf(repo))
  }

  function DocsOf(repo: Repo): Docs
  {
    map d | d in repo :: repo[d].doc
  }

  function EntryDocs(entries: Entries): Docs
  {
    map d | d in entries :: entries[d].doc
  }

  /** all lists every manifest of the repository once, in some order. */
  ghost predicate Lists(all: seq<Manifest>, repo: Repo)
  {
    && (forall i | 0 <= i < |all| :: all[i].doc.digest in repo && repo[all[i].doc.digest] == all[i])
    && (forall i, j | 0 <= i < j < |all| :: all[i].doc.digest != all[j].doc.digest)
    && (forall d | d in repo :: repo[d] in all)
  }

  ghost function DigestsOf(list: seq<Manifest>): set<Digest>
  {
    set i | 0 <= i < |list| :: list[i].doc.digest
  }

  lemma DigestsStep(list: seq<Manifest>, i: nat)
    requires i < |list|
    ensures DigestsOf(list[..i + 1]) == DigestsOf(list[..i]) + {list[i].doc.digest}
  {
    var before, after := DigestsOf(list[..i]), DigestsOf(list[..i + 1]);
    forall d | d in before ensures d in after {
      var k :| 0 <= k < i && list[..i][k].doc.digest == d;
      assert list[..i + 1][k].doc.digest == d;
    }
    forall d | d in after ensures d in before + {list[i].doc.digest} {
      var k :| 0 <= k < i + 1 && list[..i + 1][k].doc.digest == d;
      assert k < i ==> list[..i][k].doc.digest == d;
    }
    assert list[..i + 1][i].doc.digest == list[i].doc.digest;
  }

  lemma ListsAll(all: seq<Manifest>, repo: Repo)
    requires WellKeyed(repo) && Lists(all, repo)
    ensures DigestsOf(all) == repo.Keys
  {
    forall d | d in repo ensures d in DigestsOf(all) {
      var i :| 0 <= i < |all| && all[i] == repo[d];
      assert DocsOf(repo)[d].digest == d;
    }
  }

  /** Each digest has an object of its own. */
  ghost predicate Separate(entries: Entries)
  {
    forall d, e | d in entries && e in entries && d != e :: entries[d] != entries[e]
  }

  function View(entries: Entries): Repo
    reads entries.Values
  {
    map d | d in entries :: entries[d].Get()
  }

  /** The list under a digest, if there is one. */
  function ListedAt(lists: map<Digest, seq<Digest>>, d: Digest): seq<Digest>
  {
    if d in lists then lists[d] else []
  }

  // ----- the reference graph

  /** The index children of each manifest that are present. */
  ghost function Deps(repo: Repo): map<Digest, set<Digest>>
  {
    map d | d in repo :: repo[d].doc.Children() * repo.Keys
  }

  ghost function Referrers(repo: Repo, d: Digest): set<Digest>
  {
    set r | r in repo && repo[r].doc.IsReferrer() && repo[r].doc.SubjectDigest() == d
  }

  /** The manifests that refer to d, by the fields of their documents. */
  lemma ReferrersExact(repo: Repo, d: Digest, r: Digest)
    ensures r in Referrers(repo, d) <==> r in repo && Refers(repo[r].doc, d)
  {
    if r in repo {
      RefersExact(repo[r].doc);
    }
  }

  /** A referrer that does not follow its subject: an orphan under a rule deleting orphans. */
  predicate Excluded(m: Manifest, deleteOrphaned: bool)
  {
    deleteOrphaned && m.orphaned
  }

  ghost function FollowedReferrers(repo: Repo, d: Digest, deleteOrphaned: bool): set<Digest>
  {
    set r | r in Referrers(repo, d) && !Excluded(repo[r], deleteOrphaned)
  }

  /** What keeping a manifest keeps: its present children and its followed referrers. */
  ghost function KeepEdges(repo: Repo, deleteOrphaned: bool): map<Digest, set<Digest>>
  {
    map d | d in repo :: Deps(repo)[d] + FollowedReferrers(repo, d, deleteOrphaned)
  }

  /** The manifest lists a child that is not in the repository. */
  ghost predicate Broken(repo: Repo, d: Digest)
    requires d in repo
  {
    !(repo[d].doc.Children() <= repo.Keys)
  }
}
