/** Keep rules generated from an image list (internal/rules/generate.go, once a line is split). */
module Generate {
  import opened Manifests
  import opened Sums
  import opened Rules
  import opened Evaluation
  import opened Running

  /** A line of the list: empty, naming no image below the registry's location, unreadable, or
      naming an image by tag, by digest, or by both; what it does not name is "". */
  datatype Line = Empty | Elsewhere | Malformed | Image(repository: string, tag: string, digest: Digest)

  ghost function Tags(lines: seq<Line>, repository: string): set<string>
  {
    set i | 0 <= i < |lines| && lines[i].Image? && lines[i].repository == repository && lines[i].tag != "" ::
        lines[i].tag
  }

  ghost function Digests(lines: seq<Line>, repository: string): set<Digest>
  {
    set i | 0 <= i < |lines| && lines[i].Image? && lines[i].repository == repository && lines[i].digest != "" ::
        lines[i].digest
  }

  ghost function Repositories(lines: seq<Line>): set<string>
  {
    set i | 0 <= i < |lines| && lines[i].Image? :: lines[i].repository
  }

  /** The listed repositories, each where it is first listed. */
  function FirstSeen(lines: seq<Line>): seq<string>
  {
    if lines == [] then [] else
    var seen, last := FirstSeen(lines[..|lines| - 1]), lines[|lines| - 1];
    if last.Image? && last.repository !in seen then seen + [last.repository] else seen
  }

  lemma FirstSeenStep(lines: seq<Line>, i: nat)
    requires i < |lines|
    ensures var seen := FirstSeen(lines[..i]);
            FirstSeen(lines[..i + 1]) ==
            if lines[i].Image? && lines[i].repository !in seen then seen + [lines[i].repository] else seen
  {
    assert lines[..i + 1][..i] == lines[..i];
  }

  /** Some line lists the manifest, by its digest or by one of its tags. */
  ghost predicate ListedImage(lines: seq<Line>, m: Manifest)
  {
    m.doc.digest in Digests(lines, m.doc.repository) ||
    exists k :: 0 <= k < |m.doc.tags| && m.doc.tags[k] in Tags(lines, m.doc.repository)
  }

  // ----- the generated rules

  /** ".+", which matches any text with a character that ends no line. */
  const ANYTHING := Pattern(".+", true, Visible)

  predicate Visible(s: string)
  {
    exists i | 0 <= i < |s| :: s[i] != '\n'
  }

  const REST := CommonRule(None, None, None, 0, 0, 0, false)

  function DigestRule(digest: Digest): CommonRule
  {
    CommonRule(None, None, Some(Anchored(digest)), 0, 0, 0, true)
  }

  function TagRule(tag: string): TaggedRule
  {
    TaggedRule(Some(Anchored(tag)), CommonRule(None, None, None, 0, 0, 0, true))
  }

  function TaggedRules(tags: seq<string>, digests: seq<Digest>): seq<TaggedRule>
  {
    seq(|digests|, i requires 0 <= i < |digests| => TaggedRule(None, DigestRule(digests[i]))) +
    seq(|tags|, i requires 0 <= i < |tags| => TagRule(tags[i]))
  }

  function UntaggedRules(digests: seq<Digest>): seq<CommonRule>
  {
    seq(|digests|, i requires 0 <= i < |digests| => DigestRule(digests[i]))
  }

  /** The rule of one repository: keep the digests and the tags, delete the rest. */
  function RuleFor(repository: string, tags: seq<string>, digests: seq<Digest>): RepoRule
  {
    RepoRule(Anchored(repository), true, false, false,
             UntaggedRules(digests) + [REST],
             TaggedRules(tags, digests) + [TaggedRule(Some(ANYTHING), REST)])
  }

  /** What one repository's rule must keep, and the keys already recorded for it. */
  datatype Keeps = Keeps(tags: seq<string>, digests: seq<Digest>, seen: set<string>)

  ghost predicate Recorded(k: Keeps)
  {
    && (forall t :: "t:" + t in k.seen <==> t in k.tags)
    && (forall d :: "d:" + d in k.seen <==> d in k.digests)
  }

  /** The keeps hold what the lines list. */
  ghost predicate Gathered(lines: seq<Line>, keeps: map<string, Keeps>)
  {
    && keeps.Keys == Repositories(lines)
    && forall r | r in keeps :: GatheredFor(lines, r, keeps[r])
  }

  ghost predicate GatheredFor(lines: seq<Line>, r: string, k: Keeps)
  {
    Recorded(k) && Elements(k.tags) == Tags(lines, r) && Elements(k.digests) == Digests(lines, r)
  }

  lemma KeysApart(a: string, b: string)
    ensures "t:" + a != "d:" + b
    ensures "t:" + a == "t:" + b ==> a == b
    ensures "d:" + a == "d:" + b ==> a == b
  {
    assert ("t:" + a)[0] == 't' && ("d:" + b)[0] == 'd';
    assert ("t:" + a)[2..] == a && ("t:" + b)[2..] == b && ("d:" + a)[2..] == a && ("d:" + b)[2..] == b;
  }

  /** Records a tag and a digest, each unless it is absent or recorded already. */
  method Record(k: Keeps, tag: string, digest: Digest) returns (k': Keeps)
    requires Recorded(k)
    ensures Recorded(k')
    ensures Elements(k'.tags) == Elements(k.tags) + if tag != "" then {tag} else {}
    ensures Elements(k'.digests) == Elements(k.digests) + if digest != "" then {digest} else {}
  {
    k' := k;
    if tag != "" && "t:" + tag !in k'.seen {
      RecordTag(k', tag);
      k' := k'.(seen := k'.seen + {"t:" + tag}, tags := k'.tags + [tag]);
    }
    ghost var between := k';
    if digest != "" && "d:" + digest !in k'.seen {
      RecordDigest(k', digest);
      k' := k'.(seen := k'.seen + {"d:" + digest}, digests := k'.digests + [digest]);
    }
  }

  lemma RecordTag(k: Keeps, tag: string)
    requires Recorded(k)
    ensures Recorded(k.(seen := k.seen + {"t:" + tag}, tags := k.tags + [tag]))
  {
    var k' := k.(seen := k.seen + {"t:" + tag}, tags := k.tags + [tag]);
    forall t ensures "t:" + t in k'.seen <==> t in k'.tags {
      KeysApart(t, tag);
    }
    forall d ensures "d:" + d in k'.seen <==> d in k'.digests {
      KeysApart(tag, d);
    }
  }

  lemma RecordDigest(k: Keeps, digest: Digest)
    requires Recorded(k)
    ensures Recorded(k.(seen := k.seen + {"d:" + digest}, digests := k.digests + [digest]))
  {
    var k' := k.(seen := k.seen + {"d:" + digest}, digests := k.digests + [digest]);
    forall t ensures "t:" + t in k'.seen <==> t in k'.tags {
      KeysApart(t, digest);
    }
    forall d ensures "d:" + d in k'.seen <==> d in k'.digests {
      KeysApart(d, digest);
    }
  }

  lemma LineStep(lines: seq<Line>, i: nat, r: string)
    requires i < |lines|
    ensures var line, before, after := lines[i], lines[..i], lines[..i + 1];
            && Repositories(after) == Repositories(before) + (if line.Image? then {line.repository} else {})
            && Tags(after, r) == Tags(before, r) +
                 (if line.Image? && line.repository == r && line.tag != "" then {line.tag} else {})
            && Digests(after, r) == Digests(before, r) +
                 (if line.Image? && line.repository == r && line.digest != "" then {line.digest} else {})
  {
    var line, before, after := lines[i], lines[..i], lines[..i + 1];
    assert after == before + [line];
    assert after[i] == line;
    assert forall k | 0 <= k < i :: after[k] == before[k];
  }

  lemma GatherStep(lines: seq<Line>, i: nat, keeps: map<string, Keeps>, k: Keeps)
    requires i < |lines| && lines[i].Image? && Gathered(lines[..i], keeps) && Recorded(k)
    requires var was := if lines[i].repository in keeps then keeps[lines[i].repository] else Keeps([], [], {});
             && Elements(k.tags) == Elements(was.tags) + (if lines[i].tag != "" then {lines[i].tag} else {})
             && Elements(k.digests) == Elements(was.digests) + (if lines[i].digest != "" then {lines[i].digest} else {})
    ensures Gathered(lines[..i + 1], keeps[lines[i].repository := k])
  {
    var repository := lines[i].repository;
    LineStep(lines, i, repository);
    UnlistedNothing(lines[..i], repository);
    hide Recorded, Tags, Digests, Repositories;
    var keeps' := keeps[repository := k];
    forall r | r in keeps' ensures GatheredFor(lines[..i + 1], r, keeps'[r]) {
      LineStep(lines, i, r);
    }
  }

  lemma UnlistedNothing(lines: seq<Line>, r: string)
    ensures r !in Repositories(lines) ==> Tags(lines, r) == {} && Digests(lines, r) == {}
  {
  }

  lemma GatherSkip(lines: seq<Line>, i: nat, keeps: map<string, Keeps>)
    requires i < |lines| && !lines[i].Image? && Gathered(lines[..i], keeps)
    ensures Gathered(lines[..i + 1], keeps)
  {
    LineStep(lines, i, "");
    forall r | r in keeps ensures GatheredFor(lines[..i + 1], r, keeps[r]) {
      LineStep(lines, i, r);
      hide Recorded, Tags, Digests, Repositories;
    }
  }

  lemma FirstKeeps()
    ensures Recorded(Keeps([], [], {}))
  {
  }

  lemma NothingSeen()
    ensures FirstSeen([]) == []
  {
  }

  lemma NothingGathered()
    ensures Gathered([], map[])
  {
  }

  /** One repository's rule, appended to rule by rule. */
  method BuildRule(repository: string, k: Keeps) returns (rule: RepoRule)
    ensures rule == RuleFor(repository, k.tags, k.digests)
  {
    var tagged: seq<TaggedRule>, untagged: seq<CommonRule> := [], [];
    var i := 0;
    while i < |k.digests|
      invariant i <= |k.digests| && |tagged| == i && |untagged| == i
      invariant forall j | 0 <= j < i ::
                  tagged[j] == TaggedRule(None, DigestRule(k.digests[j])) && untagged[j] == DigestRule(k.digests[j])
    {
      tagged := tagged + [TaggedRule(None, DigestRule(k.digests[i]))];
      untagged := untagged + [DigestRule(k.digests[i])];
      i := i + 1;
    }
    ghost var first := tagged;
    assert untagged == UntaggedRules(k.digests);
    var j := 0;
    while j < |k.tags|
      invariant j <= |k.tags|
      invariant tagged == first + seq(j, x requires 0 <= x < j => TagRule(k.tags[x]))
    {
      tagged := tagged + [TagRule(k.tags[j])];
      j := j + 1;
    }
    assert tagged == TaggedRules(k.tags, k.digests);
    rule := RepoRule(Anchored(repository), true, false, false, untagged + [REST],
                     tagged + [TaggedRule(Some(ANYTHING), REST)]);
  }

  datatype Generated = Generated(rules: seq<RepoRule>) | BadLine(number: nat)

  /** The rule keeps what the lines list of the repository. */
  ghost predicate IsRuleFor(lines: seq<Line>, repository: string, rule: RepoRule)
  {
    exists tags, digests :: rule == RuleFor(repository, tags, digests) &&
      Elements(tags) == Tags(lines, repository) && Elements(digests) == Digests(lines, repository)
  }

  /** Gathers what the lines list, up to the first unreadable one. */
  method Gather(lines: seq<Line>) returns (bad: Option<nat>, keeps: map<string, Keeps>, listed: seq<string>)
    ensures bad.None? <==> forall i | 0 <= i < |lines| :: !lines[i].Malformed?
    ensures bad.Some? ==> 0 < bad.value <= |lines| && lines[bad.value - 1].Malformed? &&
                          forall i | 0 <= i < bad.value - 1 :: !lines[i].Malformed?
    ensures bad.None? ==> Gathered(lines, keeps) && Distinct(listed) && Elements(listed) == keeps.Keys
    ensures bad.None? ==> listed == FirstSeen(lines)
  {
    hide Gathered, Recorded, Tags, Digests, FirstSeen;
    NothingSeen();
    keeps, listed := map[], [];
    NothingGathered();
    var i := 0;
    assert lines[..0] == [];
    while i < |lines|
      invariant i <= |lines| && Gathered(lines[..i], keeps) && Distinct(listed) && Elements(listed) == keeps.Keys
      invariant listed == FirstSeen(lines[..i])
      invariant forall j | 0 <= j < i :: !lines[j].Malformed?
    {
      FirstSeenStep(lines, i);
      match lines[i] {
        case Malformed => return Some(i + 1), map[], [];
        case Empty => GatherSkip(lines, i, keeps);
        case Elsewhere => GatherSkip(lines, i, keeps);
        case Image(repository, tag, digest) =>
          FirstKeeps();
          GatheredRecorded(lines[..i], keeps);
          var k := Keeps([], [], {});
          assert repository in keeps <==> repository in Elements(listed);
          if repository in keeps {
            k := keeps[repository];
          } else {
            listed := listed + [repository];
          }
          k := Record(k, tag, digest);
          GatherStep(lines, i, keeps, k);
          keeps := keeps[repository := k];
      }
      i := i + 1;
    }
    assert lines[..i] == lines;
    bad := None;
  }

  /** One rule per listed repository, however often it is listed, in the order of first listing; the
      first unreadable line fails. */
  method KeepRules(lines: seq<Line>) returns (r: Generated, ghost order: seq<string>)
    ensures r.BadLine? <==> exists i :: 0 <= i < |lines| && lines[i].Malformed?
    ensures r.BadLine? ==> 0 < r.number <= |lines| && lines[r.number - 1].Malformed? &&
                           forall i | 0 <= i < r.number - 1 :: !lines[i].Malformed?
    ensures r.Generated? ==> Distinct(order) && Elements(order) == Repositories(lines) && |r.rules| == |order|
    ensures r.Generated? ==> order == FirstSeen(lines)
    ensures r.Generated? ==> forall i | 0 <= i < |order| :: IsRuleFor(lines, order[i], r.rules[i])
    ensures r.Generated? ==>
              forall i | 0 <= i < |order| ::
                && r.rules[i].ignoreMissing && !r.rules[i].deleteOrphaned && !r.rules[i].mustDeleteEverything
                && forall name :: r.rules[i].repo.Matches(name) <==> name == order[i]
  {
    hide Gathered, RuleFor, IsRuleFor, FirstSeen;
    var bad, keeps, listed := Gather(lines);
    if bad.Some? {
      return BadLine(bad.value), [];
    }
    GatheredKeys(lines, keeps);
    var rules: seq<RepoRule> := [];
    var n := 0;
    while n < |listed|
      invariant n <= |listed| && |rules| == n
      invariant forall j | 0 <= j < n :: IsRuleFor(lines, listed[j], rules[j])
    {
      assert listed[n] in Elements(listed);
      var rule := BuildRule(listed[n], keeps[listed[n]]);
      GatheredRule(lines, keeps, listed[n]);
      rules := rules + [rule];
      n := n + 1;
    }
    forall i | 0 <= i < |listed|
      ensures && rules[i].ignoreMissing && !rules[i].deleteOrphaned && !rules[i].mustDeleteEverything
              && forall name :: rules[i].repo.Matches(name) <==> name == listed[i]
    {
      RuleFlags(lines, listed[i], rules[i]);
    }
    return Generated(rules), listed;
  }

  /** Generated rules ignore missing manifests, and neither delete orphans nor delete as a whole. */
  lemma RuleFlags(lines: seq<Line>, repository: string, rule: RepoRule)
    requires IsRuleFor(lines, repository, rule)
    ensures rule.ignoreMissing && !rule.deleteOrphaned && !rule.mustDeleteEverything
    ensures forall name :: rule.repo.Matches(name) <==> name == repository
  {
  }

  lemma GatheredRecorded(lines: seq<Line>, keeps: map<string, Keeps>)
    requires Gathered(lines, keeps)
    ensures forall r | r in keeps :: Recorded(keeps[r])
  {
    assert forall r | r in keeps :: GatheredFor(lines, r, keeps[r]);
    hide Recorded;
  }

  lemma GatheredKeys(lines: seq<Line>, keeps: map<string, Keeps>)
    requires Gathered(lines, keeps)
    ensures keeps.Keys == Repositories(lines)
  {
  }

  lemma GatheredRule(lines: seq<Line>, keeps: map<string, Keeps>, r: string)
    requires Gathered(lines, keeps) && r in keeps
    ensures IsRuleFor(lines, r, RuleFor(r, keeps[r].tags, keeps[r].digests))
  {
    assert GatheredFor(lines, r, keeps[r]);
  }

  // ----- what the generated rules keep

  /** A tag of newlines only, which ".+" does not match. */
  predicate Invisible(tag: string)
  {
    !Visible(tag)
  }

  lemma RulesAt(repository: string, tags: seq<string>, digests: seq<Digest>, i: nat)
    requires i <= |digests| + |tags|
    ensures var rule := RuleFor(repository, tags, digests);
            && |rule.tagged| == |digests| + |tags| + 1 && |rule.untagged| == |digests| + 1
            && (i < |digests| ==>
                  && rule.tagged[i] == TaggedRule(None, DigestRule(digests[i]))
                  && rule.untagged[i] == DigestRule(digests[i]))
            && (|digests| <= i < |digests| + |tags| ==> rule.tagged[i] == TagRule(tags[i - |digests|]))
            && (i == |digests| + |tags| ==> rule.tagged[i] == TaggedRule(Some(ANYTHING), REST))
            && rule.untagged[|digests|] == REST
  {
  }

  /** A rule without rank, age or platform constraint applies by digest alone. */
  lemma DigestOnly(repo: Repo, ranked: set<Digest>, r: CommonRule, m: Manifest, now: int)
    requires m.doc.digest in repo && ranked <= repo.Keys
    requires r.newest == 0 && r.arch.None? && r.os.None? && r.newerThan == 0 && r.olderThan == 0
    ensures Applies(repo, ranked, r, m, now) <==> MatchAny(r.digest, [m.doc.digest])
  {
  }

  lemma MatchDigest(digest: Digest, d: Digest)
    ensures MatchAny(Some(Anchored(digest)), [d]) <==> d == digest
  {
    assert [d][0] == d;
  }

  lemma MatchAnything(s: string)
    ensures MatchString(Some(ANYTHING), s) <==> Visible(s)
  {
    assert !FixedText(ANYTHING.source);
    if s != "" && '\n' !in s {
      assert s[0] != '\n';
    }
  }

  /** A rule from i on names the manifest by digest or by this tag. */
  ghost predicate Named(tags: seq<string>, digests: seq<Digest>, m: Manifest, tag: string, i: nat)
  {
    (exists k :: i <= k < |digests| && digests[k] == m.doc.digest) ||
    (exists k :: 0 <= k < |tags| && i <= k + |digests| && tags[k] == tag)
  }

  lemma DigestStep(repo: Repo, rule: RepoRule, now: int, m: Manifest, tag: string, i: nat, digest: Digest)
    requires m.doc.digest in repo && i < |rule.tagged| && rule.tagged[i] == TaggedRule(None, DigestRule(digest))
    ensures TagVerdict(repo, rule, now, m, tag, i) <==>
              m.doc.digest == digest || TagVerdict(repo, rule, now, m, tag, i + 1)
    ensures TagRuns(rule, m, tag, i) <==> m.doc.digest == digest || TagRuns(rule, m, tag, i + 1)
  {
    DigestOnly(repo, TaggedRanks(repo, rule.tagged[i], now), DigestRule(digest), m, now);
    MatchDigest(digest, m.doc.digest);
    hide TaggedRanks, MatchAny, Applies;
  }

  lemma TagStep(repo: Repo, rule: RepoRule, now: int, m: Manifest, tag: string, i: nat, name: string)
    requires m.doc.digest in repo && i < |rule.tagged| && rule.tagged[i] == TagRule(name)
    ensures TagVerdict(repo, rule, now, m, tag, i) <==> tag == name || TagVerdict(repo, rule, now, m, tag, i + 1)
    ensures TagRuns(rule, m, tag, i) <==> tag == name || TagRuns(rule, m, tag, i + 1)
  {
    DigestOnly(repo, TaggedRanks(repo, rule.tagged[i], now), rule.tagged[i].common, m, now);
    hide TaggedRanks, Applies;
  }

  lemma RestStep(repo: Repo, rule: RepoRule, now: int, m: Manifest, tag: string, i: nat)
    requires m.doc.digest in repo && i + 1 == |rule.tagged| && rule.tagged[i] == TaggedRule(Some(ANYTHING), REST)
    ensures TagVerdict(repo, rule, now, m, tag, i) <==> Invisible(tag)
    ensures !TagRuns(rule, m, tag, i)
  {
    DigestOnly(repo, TaggedRanks(repo, rule.tagged[i], now), REST, m, now);
    MatchAnything(tag);
    hide TaggedRanks, Applies, Visible;
  }

  /** From rule i on, a tag is kept by a digest, by its name, or because nothing matches it. */
  lemma {:induction false} TagOutcome(repo: Repo, repository: string, tags: seq<string>, digests: seq<Digest>, now: int,
                                      m: Manifest, tag: string, i: nat)
    requires m.doc.digest in repo && i <= |digests| + |tags| && i <= |RuleFor(repository, tags, digests).tagged|
    ensures var rule := RuleFor(repository, tags, digests);
            && (TagVerdict(repo, rule, now, m, tag, i) <==> Named(tags, digests, m, tag, i) || Invisible(tag))
            && (TagRuns(rule, m, tag, i) <==> Named(tags, digests, m, tag, i))
    decreases |digests| + |tags| - i
  {
    var rule := RuleFor(repository, tags, digests);
    RulesAt(repository, tags, digests, i);
    hide TagVerdict, TagRuns, RuleFor, Visible;
    if i < |digests| {
      TagOutcome(repo, repository, tags, digests, now, m, tag, i + 1);
      DigestStep(repo, rule, now, m, tag, i, digests[i]);
    } else if i < |digests| + |tags| {
      TagOutcome(repo, repository, tags, digests, now, m, tag, i + 1);
      TagStep(repo, rule, now, m, tag, i, tags[i - |digests|]);
    } else {
      RestStep(repo, rule, now, m, tag, i);
    }
  }

  lemma {:induction false} UntaggedOutcome(repo: Repo, repository: string, tags: seq<string>, digests: seq<Digest>,
                                           now: int,
                                           m: Manifest, i: nat)
    requires m.doc.digest in repo && i <= |digests| && i <= |RuleFor(repository, tags, digests).untagged|
    ensures var rule := RuleFor(repository, tags, digests);
            && (UntaggedVerdict(repo, rule, now, m, i) <==>
                  exists k :: i <= k < |digests| && digests[k] == m.doc.digest)
            && (UntaggedRuns(rule, m, i) <==> exists k :: i <= k < |digests| && digests[k] == m.doc.digest)
    decreases |digests| - i
  {
    var rule := RuleFor(repository, tags, digests);
    RulesAt(repository, tags, digests, i);
    var r := rule.untagged[i];
    DigestOnly(repo, UntaggedRanks(repo, r, now), r, m, now);
    if i < |digests| {
      UntaggedOutcome(repo, repository, tags, digests, now, m, i + 1);
      MatchDigest(digests[i], m.doc.digest);
    }
    hide UntaggedRanks, MatchAny, Applies, RuleFor;
  }

  lemma NamedAtAll(lines: seq<Line>, tags: seq<string>, digests: seq<Digest>, m: Manifest)
    requires Elements(tags) == Tags(lines, m.doc.repository) && Elements(digests) == Digests(lines, m.doc.repository)
    ensures (exists k :: 0 <= k < |digests| && digests[k] == m.doc.digest) <==>
            m.doc.digest in Digests(lines, m.doc.repository)
    ensures forall tag :: Named(tags, digests, m, tag, 0) <==>
              m.doc.digest in Digests(lines, m.doc.repository) || tag in Tags(lines, m.doc.repository)
  {
    hide Tags, Digests;
    forall x ensures x in Tags(lines, m.doc.repository) <==> exists k :: 0 <= k < |tags| && tags[k] == x {
      assert x in Elements(tags) <==> x in tags;
    }
  }

  /** A generated rule keeps an image exactly when it is listed, or when one of its tags is
      invisible to the catch-all; an image runs exactly when it is listed. */
  lemma GeneratedKeeps(lines: seq<Line>, rule: RepoRule, repo: Repo, now: int, m: Manifest)
    requires m.doc.digest in repo && IsRuleFor(lines, m.doc.repository, rule)
    ensures !m.doc.IsReferrer() ==>
              (RulesKeep(repo, rule, now, m) <==>
                 ListedImage(lines, m) || exists k :: 0 <= k < |m.doc.tags| && Invisible(m.doc.tags[k]))
    ensures RunsUnder(rule, m) <==> ListedImage(lines, m)
  {
    var tags, digests :| rule == RuleFor(m.doc.repository, tags, digests) &&
      Elements(tags) == Tags(lines, m.doc.repository) && Elements(digests) == Digests(lines, m.doc.repository);
    NamedAtAll(lines, tags, digests, m);
    UntaggedOutcome(repo, m.doc.repository, tags, digests, now, m, 0);
    forall k | 0 <= k < |m.doc.tags|
      ensures TagKept(repo, rule, now, m, k) <==>
              m.doc.digest in Digests(lines, m.doc.repository) || m.doc.tags[k] in Tags(lines, m.doc.repository) ||
                  Invisible(m.doc.tags[k])
      ensures TagRuns(rule, m, m.doc.tags[k], 0) <==>
              m.doc.digest in Digests(lines, m.doc.repository) || m.doc.tags[k] in Tags(lines, m.doc.repository)
    {
      TagOutcome(repo, m.doc.repository, tags, digests, now, m, m.doc.tags[k], 0);
    }
    hide TagVerdict, TagRuns, UntaggedVerdict, UntaggedRuns, RuleFor, Tags, Digests, Visible, Named, TagKept;
    if m.doc.tags != [] && m.doc.digest in Digests(lines, m.doc.repository) {
      assert TagKept(repo, rule, now, m, 0) && TagRuns(rule, m, m.doc.tags[0], 0);
    }
  }

  lemma {:induction false} RunsFrom(lines: seq<Line>, order: seq<string>, rules: seq<RepoRule>, repo: Repo,
                                    m: Manifest, i: nat)
    requires |rules| == |order| && i <= |rules| && m.doc.digest in repo
    requires forall j | 0 <= j < |order| :: IsRuleFor(lines, order[j], rules[j])
    ensures Runs(rules, m, i) <==> ListedImage(lines, m) && exists j :: i <= j < |order| && order[j] == m.doc.repository
    decreases |rules| - i
  {
    if i < |rules| {
      RunsFrom(lines, order, rules, repo, m, i + 1);
      assert IsRuleFor(lines, order[i], rules[i]);
      RuleMatches(lines, order[i], rules[i], m.doc.repository);
      if order[i] == m.doc.repository {
        GeneratedKeeps(lines, rules[i], repo, 0, m);
      }
      hide RunsUnder, ListedImage, IsRuleFor;
    }
  }

  lemma RuleMatches(lines: seq<Line>, repository: string, rule: RepoRule, name: string)
    requires IsRuleFor(lines, repository, rule)
    ensures rule.repo.Matches(name) <==> name == repository
  {
  }

  lemma ListedRepository(lines: seq<Line>, m: Manifest)
    requires ListedImage(lines, m)
    ensures m.doc.repository in Repositories(lines)
  {
  }

  /** The inventory marks an image as running exactly when the list names it; and the rules keep
      the same images, but for those with an invisible tag. */
  lemma InventoryExact(lines: seq<Line>, order: seq<string>, rules: seq<RepoRule>, repo: Repo, m: Manifest)
    requires Distinct(order) && Elements(order) == Repositories(lines) && |rules| == |order|
    requires forall j | 0 <= j < |order| :: IsRuleFor(lines, order[j], rules[j])
    requires m.doc.digest in repo
    ensures Runs(rules, m, 0) <==> ListedImage(lines, m)
    ensures forall j, now | !m.doc.IsReferrer() && 0 <= j < |order| && order[j] == m.doc.repository ::
              (RulesKeep(repo, rules[j], now, m) <==> Runs(rules, m, 0)) <==>
              ListedImage(lines, m) || forall k | 0 <= k < |m.doc.tags| :: Visible(m.doc.tags[k])
  {
    RunsFrom(lines, order, rules, repo, m, 0);
    if ListedImage(lines, m) {
      ListedRepository(lines, m);
      assert m.doc.repository in Elements(order);
    }
    forall j, now: int | !m.doc.IsReferrer() && 0 <= j < |order| && order[j] == m.doc.repository
      ensures (RulesKeep(repo, rules[j], now, m) <==> Runs(rules, m, 0)) <==>
              ListedImage(lines, m) || forall k | 0 <= k < |m.doc.tags| :: Visible(m.doc.tags[k])
    {
      GeneratedKeeps(lines, rules[j], repo, now, m);
      hide RulesKeep, ListedImage, Runs, Visible;
      assert (forall k | 0 <= k < |m.doc.tags| :: Visible(m.doc.tags[k])) ||
             exists k :: 0 <= k < |m.doc.tags| && Invisible(m.doc.tags[k]);
    }
  }

  /** A tag as registries accept it: not empty, on one line. */
  predicate PlainTag(tag: string)
  {
    tag != "" && '\n' !in tag
  }

  /** Of manifests with plain tags, the rules keep exactly the images that run, and these are exactly
      the listed ones. */
  lemma InventoryKeeps(lines: seq<Line>, order: seq<string>, rules: seq<RepoRule>, repo: Repo, m: Manifest, now: int)
    requires Distinct(order) && Elements(order) == Repositories(lines) && |rules| == |order|
    requires forall j | 0 <= j < |order| :: IsRuleFor(lines, order[j], rules[j])
    requires m.doc.digest in repo && forall k | 0 <= k < |m.doc.tags| :: PlainTag(m.doc.tags[k])
    ensures Runs(rules, m, 0) <==> ListedImage(lines, m)
    ensures forall j | !m.doc.IsReferrer() && 0 <= j < |order| && order[j] == m.doc.repository ::
              RulesKeep(repo, rules[j], now, m) <==> ListedImage(lines, m)
  {
    hide RulesKeep, Runs, ListedImage, IsRuleFor;
    InventoryExact(lines, order, rules, repo, m);
    forall k | 0 <= k < |m.doc.tags| ensures Visible(m.doc.tags[k]) {
      assert m.doc.tags[k][0] != '\n';
    }
  }

  /** Neither the order nor the repetition of lines matters. */
  lemma OrderIrrelevant(lines: seq<Line>, other: seq<Line>, rule: RepoRule, rule': RepoRule, repo: Repo, now: int,
                        m: Manifest)
    requires Elements(lines) == Elements(other) && m.doc.digest in repo && !m.doc.IsReferrer()
    requires IsRuleFor(lines, m.doc.repository, rule) && IsRuleFor(other, m.doc.repository, rule')
    ensures Repositories(lines) == Repositories(other)
    ensures RulesKeep(repo, rule, now, m) <==> RulesKeep(repo, rule', now, m)
  {
    SameLines(lines, other, m.doc.repository);
    SameLines(other, lines, m.doc.repository);
    GeneratedKeeps(lines, rule, repo, now, m);
    GeneratedKeeps(other, rule', repo, now, m);
    hide RulesKeep, IsRuleFor, Tags, Digests, Repositories;
  }

  lemma SameLines(lines: seq<Line>, other: seq<Line>, r: string)
    requires Elements(lines) <= Elements(other)
    ensures Tags(lines, r) <= Tags(other, r) && Digests(lines, r) <= Digests(other, r) &&
            Repositories(lines) <= Repositories(other)
  {
    forall i | 0 <= i < |lines| ensures exists j :: 0 <= j < |other| && other[j] == lines[i] {
      assert lines[i] in Elements(lines);
    }
  }
}
