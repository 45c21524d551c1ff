/** Which manifests the tagged and untagged rules keep (internal/pruner/eval.go). */
module Evaluation {
  import opened Manifests
  import opened Order
  import opened Rules

  // ----- what a rule matches

  predicate MatchPlatformValue(re: Option<Regex>, value: string)
  {
    re.None? || (value != "" && value != "unknown" && re.value.Matches(value))
  }

  /** One platform of the manifest satisfies the constraints on architecture and on system. */
  predicate MatchesPlatform(r: CommonRule, m: Manifest)
  {
    (r.arch.None? && r.os.None?) ||
    exists i | 0 <= i < |m.platforms| ::
      MatchPlatformValue(r.arch, m.platforms[i].arch) && MatchPlatformValue(r.os, m.platforms[i].os)
  }

  /** Every criterion of a rule but its rank. */
  predicate Criteria(r: CommonRule, m: Manifest, now: int)
  {
    && MatchesPlatform(r, m)
    && MatchAny(r.digest, [m.doc.digest])
    && (r.newerThan != 0 ==> m.doc.updated + r.newerThan > now)
    && (r.olderThan != 0 ==> m.doc.updated + r.olderThan < now)
  }

  /** The criteria, one by one: no criterion is met unless it is absent; and one platform has to meet
      both constraints, which an unknown or missing name meets only if there is none. */
  lemma CriteriaExact(r: CommonRule, m: Manifest, now: int)
    ensures Criteria(r, m, now) <==>
            && (r.digest.None? || r.digest.value.Matches(m.doc.digest))
            && (r.newerThan == 0 || m.doc.updated > now - r.newerThan)
            && (r.olderThan == 0 || m.doc.updated < now - r.olderThan)
            && ((r.arch.None? && r.os.None?) || exists q :: q in m.platforms && Meets(r, q))
  {
    assert [m.doc.digest][0] == m.doc.digest;
    forall i | 0 <= i < |m.platforms|
      ensures Meets(r, m.platforms[i]) <==>
              MatchPlatformValue(r.arch, m.platforms[i].arch) && MatchPlatformValue(r.os, m.platforms[i].os)
    {
    }
    if q :| q in m.platforms && Meets(r, q) {
      var i :| 0 <= i < |m.platforms| && m.platforms[i] == q;
    }
  }

  ghost predicate Meets(r: CommonRule, q: Platform)
  {
    && (r.arch.Some? ==> q.arch !in {"", "unknown"} && r.arch.value.Matches(q.arch))
    && (r.os.Some? ==> q.os !in {"", "unknown"} && r.os.value.Matches(q.os))
  }

  /** The manifests that take part in ranking: no referrers and no index children. */
  predicate Eligible(m: Manifest, tagged: bool)
  {
    !m.doc.IsReferrer() && !m.hasOwner && (|m.doc.tags| > 0) == tagged
  }

  predicate RankedByTag(r: TaggedRule, m: Manifest, now: int)
  {
    MatchAny(r.tag, m.doc.tags) && Criteria(r.common, m, now)
  }

  ghost function TaggedRanks(repo: Repo, r: TaggedRule, now: int): set<Digest>
  {
    set d | d in repo && Eligible(repo[d], true) && RankedByTag(r, repo[d], now)
  }

  ghost function UntaggedRanks(repo: Repo, r: CommonRule, now: int): set<Digest>
  {
    set d | d in repo && Eligible(repo[d], false) && Criteria(r, repo[d], now)
  }

  /** A rule ranks what refers to nothing, has no owner, is tagged or not as the rule is, and meets its
      criteria; a rule for tags, if one of the tags matches. */
  lemma RanksExact(repo: Repo, tagged: TaggedRule, untagged: CommonRule, now: int, d: Digest)
    ensures d in TaggedRanks(repo, tagged, now) <==>
            && d in repo && (forall x :: !Refers(repo[d].doc, x)) && !repo[d].hasOwner && repo[d].doc.tags != []
            && (tagged.tag.None? || exists t :: t in repo[d].doc.tags && tagged.tag.value.Matches(t))
            && Criteria(tagged.common, repo[d], now)
    ensures d in UntaggedRanks(repo, untagged, now) <==>
            && d in repo && (forall x :: !Refers(repo[d].doc, x)) && !repo[d].hasOwner && repo[d].doc.tags == []
            && Criteria(untagged, repo[d], now)
  {
    if d in repo {
      RefersExact(repo[d].doc);
      hide Criteria, Refers;
      assert MatchAny(tagged.tag, repo[d].doc.tags) <==>
             tagged.tag.None? || exists t :: t in repo[d].doc.tags && tagged.tag.value.Matches(t);
    }
  }

  /** The window of a rank constraint: the N newest, or all but the N newest. */
  predicate InWindow(newest: int, position: int)
  {
    if newest > 0 then position < newest else -position <= newest
  }

  ghost predicate Applies(repo: Repo, ranked: set<Digest>, r: CommonRule, m: Manifest, now: int)
    requires ranked <= repo.Keys && m.doc.digest in repo
  {
    if r.newest == 0 then Criteria(r, m, now)
    else m.doc.digest in ranked && InWindow(r.newest, Position(DocsOf(repo), ranked, m.doc.digest))
  }

  /** The verdict of the first tagged rule from i on that matches the tag and the manifest;
      kept when none does. An index child a ranked rule matches is left to its index. */
  ghost predicate TagVerdict(repo: Repo, rule: RepoRule, now: int, m: Manifest, tag: string, i: nat)
    requires m.doc.digest in repo && i <= |rule.tagged|
    decreases |rule.tagged| - i
  {
    if i == |rule.tagged| then true else
    var r := rule.tagged[i];
    if !MatchString(r.tag, tag) then TagVerdict(repo, rule, now, m, tag, i + 1)
    else if r.common.newest != 0 && m.hasOwner then
      !Criteria(r.common, m, now) && TagVerdict(repo, rule, now, m, tag, i + 1)
    else if Applies(repo, TaggedRanks(repo, r, now), r.common, m, now) then r.common.keep
    else TagVerdict(repo, rule, now, m, tag, i + 1)
  }

  ghost predicate UntaggedVerdict(repo: Repo, rule: RepoRule, now: int, m: Manifest, i: nat)
    requires m.doc.digest in repo && i <= |rule.untagged|
    decreases |rule.untagged| - i
  {
    if i == |rule.untagged| then true else
    var r := rule.untagged[i];
    if r.newest != 0 && m.hasOwner then
      !Criteria(r, m, now) && UntaggedVerdict(repo, rule, now, m, i + 1)
    else if Applies(repo, UntaggedRanks(repo, r, now), r, m, now) then r.keep
    else UntaggedVerdict(repo, rule, now, m, i + 1)
  }

  ghost predicate TagKept(repo: Repo, rule: RepoRule, now: int, m: Manifest, k: nat)
    requires m.doc.digest in repo && k < |m.doc.tags|
  {
    TagVerdict(repo, rule, now, m, m.doc.tags[k], 0)
  }

  /** The rules keep the manifest: a referrer always, an untagged manifest by its verdict, a
      tagged one as soon as one of its tags is kept. */
  ghost predicate RulesKeep(repo: Repo, rule: RepoRule, now: int, m: Manifest)
    requires m.doc.digest in repo
  {
    if m.doc.IsReferrer() then true
    else if m.doc.tags == [] then UntaggedVerdict(repo, rule, now, m, 0)
    else exists k | 0 <= k < |m.doc.tags| :: TagKept(repo, rule, now, m, k)
  }

  // ----- the first rule that settles a manifest

  /** The rule settles a tag of the manifest: it matches both; of an index child it is enough, for a
      ranked rule, to meet the criteria. */
  ghost predicate Settles(repo: Repo, r: TaggedRule, now: int, m: Manifest, tag: string)
    requires m.doc.digest in repo
  {
    (r.tag.None? || r.tag.value.Matches(tag)) &&
    if r.common.newest != 0 && m.hasOwner then Criteria(r.common, m, now)
    else Applies(repo, TaggedRanks(repo, r, now), r.common, m, now)
  }

  ghost predicate FirstSettled(repo: Repo, rule: RepoRule, now: int, m: Manifest, tag: string, i: nat, j: nat)
    requires m.doc.digest in repo
  {
    && i <= j < |rule.tagged| && Settles(repo, rule.tagged[j], now, m, tag)
    && forall k | i <= k < j :: !Settles(repo, rule.tagged[k], now, m, tag)
  }

  /** A tag is condemned exactly by the first rule that settles it: if that deletes, or is a ranked one
      that leaves an index child to its index. A tag that no rule settles is kept. */
  lemma {:induction false} TagVerdictFirst(repo: Repo, rule: RepoRule, now: int, m: Manifest, tag: string, i: nat)
    requires m.doc.digest in repo && i <= |rule.tagged|
    ensures !TagVerdict(repo, rule, now, m, tag, i) <==>
            exists j: nat :: FirstSettled(repo, rule, now, m, tag, i, j) &&
              (!rule.tagged[j].common.keep || (rule.tagged[j].common.newest != 0 && m.hasOwner))
    decreases |rule.tagged| - i
  {
    if i < |rule.tagged| {
      TagVerdictFirst(repo, rule, now, m, tag, i + 1);
      hide Applies, Criteria, TaggedRanks;
      forall j: nat ensures FirstSettled(repo, rule, now, m, tag, i, j) <==>
                       if Settles(repo, rule.tagged[i], now, m, tag) then i == j
                       else FirstSettled(repo, rule, now, m, tag, i + 1, j)
      {
      }
      hide FirstSettled;
    }
  }

  ghost predicate UntaggedSettles(repo: Repo, r: CommonRule, now: int, m: Manifest)
    requires m.doc.digest in repo
  {
    if r.newest != 0 && m.hasOwner then Criteria(r, m, now)
    else Applies(repo, UntaggedRanks(repo, r, now), r, m, now)
  }

  ghost predicate FirstUntagged(repo: Repo, rule: RepoRule, now: int, m: Manifest, i: nat, j: nat)
    requires m.doc.digest in repo
  {
    && i <= j < |rule.untagged| && UntaggedSettles(repo, rule.untagged[j], now, m)
    && forall k | i <= k < j :: !UntaggedSettles(repo, rule.untagged[k], now, m)
  }

  lemma {:induction false} UntaggedVerdictFirst(repo: Repo, rule: RepoRule, now: int, m: Manifest, i: nat)
    requires m.doc.digest in repo && i <= |rule.untagged|
    ensures !UntaggedVerdict(repo, rule, now, m, i) <==>
            exists j: nat :: FirstUntagged(repo, rule, now, m, i, j) &&
              (!rule.untagged[j].keep || (rule.untagged[j].newest != 0 && m.hasOwner))
    decreases |rule.untagged| - i
  {
    if i < |rule.untagged| {
      UntaggedVerdictFirst(repo, rule, now, m, i + 1);
      hide Applies, Criteria, UntaggedRanks;
      forall j: nat ensures FirstUntagged(repo, rule, now, m, i, j) <==>
                       if UntaggedSettles(repo, rule.untagged[i], now, m) then i == j
                       else FirstUntagged(repo, rule, now, m, i + 1, j)
      {
      }
      hide FirstUntagged;
    }
  }

  /** The rules delete exactly what refers to nothing and, if untagged, the first rule to settle it
      condemns; or, if tagged, is condemned by every one of its tags. */
  lemma RulesKeepExact(repo: Repo, rule: RepoRule, now: int, m: Manifest)
    requires m.doc.digest in repo
    ensures !RulesKeep(repo, rule, now, m) <==>
            (forall x :: !Refers(m.doc, x)) &&
            if m.doc.tags == []
            then exists j: nat :: FirstUntagged(repo, rule, now, m, 0, j) &&
                   (!rule.untagged[j].keep || (rule.untagged[j].newest != 0 && m.hasOwner))
            else forall tag | tag in m.doc.tags ::
                   exists j: nat :: FirstSettled(repo, rule, now, m, tag, 0, j) &&
                     (!rule.tagged[j].common.keep || (rule.tagged[j].common.newest != 0 && m.hasOwner))
  {
    RefersExact(m.doc);
    UntaggedVerdictFirst(repo, rule, now, m, 0);
    forall tag | tag in m.doc.tags
      ensures !TagVerdict(repo, rule, now, m, tag, 0) <==>
              exists j: nat :: FirstSettled(repo, rule, now, m, tag, 0, j) &&
                (!rule.tagged[j].common.keep || (rule.tagged[j].common.newest != 0 && m.hasOwner))
    {
      TagVerdictFirst(repo, rule, now, m, tag, 0);
    }
    SomeTagKept(repo, rule, now, m);
    hide TagVerdict, UntaggedVerdict, FirstSettled, FirstUntagged, Refers, TagKept;
    assert (exists k | 0 <= k < |m.doc.tags| :: TagKept(repo, rule, now, m, k)) <==>
           !forall tag | tag in m.doc.tags :: !TagVerdict(repo, rule, now, m, tag, 0);
  }

  lemma SomeTagKept(repo: Repo, rule: RepoRule, now: int, m: Manifest)
    requires m.doc.digest in repo
    ensures (exists k | 0 <= k < |m.doc.tags| :: TagKept(repo, rule, now, m, k)) <==>
            exists tag :: tag in m.doc.tags && TagVerdict(repo, rule, now, m, tag, 0)
  {
    hide TagVerdict;
    if tag :| tag in m.doc.tags && TagVerdict(repo, rule, now, m, tag, 0) {
      var k :| 0 <= k < |m.doc.tags| && m.doc.tags[k] == tag;
      assert TagKept(repo, rule, now, m, k);
    }
  }

  // ----- the evaluator

  /** The positions are those of exactly the ranked manifests. */
  ghost predicate Ranking(docs: Docs, ranked: set<Digest>, positions: map<Digest, nat>)
  {
    && positions.Keys == ranked
    && ranked <= docs.Keys
    && forall d | d in ranked :: positions[d] == Position(docs, ranked, d)
  }

  /** The candidates of a repository, sorted. */
  ghost predicate IsCandidates(repo: Repo, sorted: seq<Manifest>, tagged: bool)
  {
    && (forall i | 0 <= i < |sorted| ::
          sorted[i].doc.digest in repo && repo[sorted[i].doc.digest] == sorted[i] && Eligible(sorted[i], tagged))
    && (forall d | d in repo && Eligible(repo[d], tagged) :: repo[d] in sorted)
  }

  /** The digests of a list that satisfy the predicate. */
  ghost function Selected(list: seq<Manifest>, pred: Manifest -> bool): set<Digest>
  {
    set i | 0 <= i < |list| && pred(list[i]) :: list[i].doc.digest
  }

  ghost predicate SortedSlice(docs: Docs, ordered: seq<Manifest>)
  {
    && NewestFirst(ordered)
    && (forall i | 0 <= i < |ordered| :: ordered[i].doc.digest in docs && docs[ordered[i].doc.digest] == ordered[i].doc)
    && DistinctDigests(ordered)
  }

  method Rank(ordered: seq<Manifest>, pred: Manifest -> bool, ghost docs: Docs) returns (positions: map<Digest, nat>)
    requires WellKeyedDocs(docs) && SortedSlice(docs, ordered)
    ensures Ranking(docs, Selected(ordered, pred), positions)
  {
    positions := map[];
    var i := 0;
    assert Selected(ordered[..0], pred) == {};
    while i < |ordered|
      invariant i <= |ordered|
      invariant Ranking(docs, Selected(ordered[..i], pred), positions)
    {
      var m := ordered[i];
      SelectedStep(docs, ordered, pred, i, positions);
      if pred(m) {
        positions := positions[m.doc.digest := |positions|];
      }
      i := i + 1;
    }
    assert ordered[..i] == ordered;
  }

  lemma SelectedGrows(docs: Docs, ordered: seq<Manifest>, pred: Manifest -> bool, i: nat)
    requires i < |ordered| && WellKeyedDocs(docs) && SortedSlice(docs, ordered)
    ensures var s, d := Selected(ordered[..i], pred), ordered[i].doc.digest;
            && Selected(ordered[..i + 1], pred) == s + (if pred(ordered[i]) then {d} else {})
            && d !in s && forall x | x in s :: x in docs && Newer(docs[x], docs[d])
  {
    var s, s', d := Selected(ordered[..i], pred), Selected(ordered[..i + 1], pred), ordered[i].doc.digest;
    forall x | x in s ensures x in s' && x != d && x in docs && Newer(docs[x], docs[d]) {
      var k :| 0 <= k < i && pred(ordered[..i][k]) && ordered[..i][k].doc.digest == x;
      assert ordered[..i + 1][k] == ordered[k];
      NewerTotal(docs[x], docs[d]);
    }
    forall x | x in s' ensures x in s || (x == d && pred(ordered[i])) {
      var k :| 0 <= k < i + 1 && pred(ordered[..i + 1][k]) && ordered[..i + 1][k].doc.digest == x;
      assert k < i ==> ordered[..i][k] == ordered[k];
    }
    assert ordered[..i + 1][i] == ordered[i];
  }

  lemma RankingGrows(docs: Docs, s: set<Digest>, d: Digest, positions: map<Digest, nat>)
    requires WellKeyedDocs(docs) && d in docs && d !in s && Ranking(docs, s, positions)
    requires forall x | x in s :: Newer(docs[x], docs[d])
    ensures Ranking(docs, s + {d}, positions[d := |positions|])
  {
    hide Position;
    OldestPosition(docs, s + {d}, d);
    assert s + {d} - {d} == s;
    assert |positions| == |positions.Keys|;
  }

  lemma SelectedStep(docs: Docs, ordered: seq<Manifest>, pred: Manifest -> bool, i: nat, positions: map<Digest, nat>)
    requires i < |ordered| && WellKeyedDocs(docs) && SortedSlice(docs, ordered)
    requires Ranking(docs, Selected(ordered[..i], pred), positions)
    ensures Ranking(docs, Selected(ordered[..i + 1], pred),
              if pred(ordered[i]) then positions[ordered[i].doc.digest := |positions|] else positions)
  {
    SelectedGrows(docs, ordered, pred, i);
    hide Ranking, Selected;
    if pred(ordered[i]) {
      RankingGrows(docs, Selected(ordered[..i], pred), ordered[i].doc.digest, positions);
    } else {
      assert Selected(ordered[..i + 1], pred) == Selected(ordered[..i], pred);
    }
  }

  class Evaluator {
    const rule: RepoRule
    const now: int
    const tagged: seq<map<Digest, nat>>
    const untagged: seq<map<Digest, nat>>

    /** Each ranked rule has the positions of the manifests it ranks. */
    ghost predicate Valid(repo: Repo)
    {
      && |tagged| == |rule.tagged| && |untagged| == |rule.untagged|
      && (forall i | 0 <= i < |tagged| && rule.tagged[i].common.newest != 0 ::
            Ranking(DocsOf(repo), TaggedRanks(repo, rule.tagged[i], now), tagged[i]))
      && (forall i | 0 <= i < |untagged| && rule.untagged[i].newest != 0 ::
            Ranking(DocsOf(repo), UntaggedRanks(repo, rule.untagged[i], now), untagged[i]))
    }

    constructor (rule: RepoRule, all: seq<Manifest>, now: int, ghost repo: Repo)
      requires WellKeyed(repo) && Lists(all, repo)
      ensures this.rule == rule && this.now == now && Valid(repo)
    {
      var needTagged := exists i | 0 <= i < |rule.tagged| :: rule.tagged[i].common.newest != 0;
      var needUntagged := exists i | 0 <= i < |rule.untagged| :: rule.untagged[i].newest != 0;
      var byTag := seq(|rule.tagged|, _ => map[]);
      var byAge := seq(|rule.untagged|, _ => map[]);
      if needTagged || needUntagged {
        var withTags, without := Candidates(all, needTagged, needUntagged);
        CandidatesComplete(all, repo, true);
        CandidatesComplete(all, repo, false);
        byTag := RankTagged(rule, now, SortNewest(withTags), repo);
        byAge := RankUntagged(rule, now, SortNewest(without), repo);
      }
      this.rule, this.now, tagged, untagged := rule, now, byTag, byAge;
    }

    /** A rule applies to a manifest, given the positions of everything it ranked. */
    method Matches(positions: map<Digest, nat>, r: CommonRule, m: Manifest, ghost repo: Repo, ghost ranked: set<Digest>)
      returns (applies: bool)
      requires m.doc.digest in repo && ranked <= repo.Keys
      requires r.newest != 0 ==> Ranking(DocsOf(repo), ranked, positions)
      ensures applies == Applies(repo, ranked, r, m, now)
    {
      if r.newest == 0 {
        return Criteria(r, m, now);
      }
      if m.doc.digest !in positions {
        return false;
      }
      return InWindow(r.newest, positions[m.doc.digest]);
    }

    method KeepTag(m: Manifest, tag: string, ghost repo: Repo) returns (keep: bool)
      requires Valid(repo) && m.doc.digest in repo
      ensures keep == TagVerdict(repo, rule, now, m, tag, 0)
    {
      var i := 0;
      while i < |rule.tagged|
        invariant i <= |rule.tagged|
        invariant TagVerdict(repo, rule, now, m, tag, 0) == TagVerdict(repo, rule, now, m, tag, i)
      {
        var r := rule.tagged[i];
        if MatchString(r.tag, tag) {
          if r.common.newest != 0 && m.hasOwner {
            if Criteria(r.common, m, now) {
              return false;
            }
          } else {
            var applies := Matches(tagged[i], r.common, m, repo, TaggedRanks(repo, r, now));
            if applies {
              return r.common.keep;
            }
          }
        }
        i := i + 1;
      }
      return true;
    }

    method KeepUntagged(m: Manifest, ghost repo: Repo) returns (keep: bool)
      requires Valid(repo) && m.doc.digest in repo
      ensures keep == UntaggedVerdict(repo, rule, now, m, 0)
    {
      var i := 0;
      while i < |rule.untagged|
        invariant i <= |rule.untagged|
        invariant UntaggedVerdict(repo, rule, now, m, 0) == UntaggedVerdict(repo, rule, now, m, i)
      {
        var r := rule.untagged[i];
        if r.newest != 0 && m.hasOwner {
          if Criteria(r, m, now) {
            return false;
          }
        } else {
          var applies := Matches(untagged[i], r, m, repo, UntaggedRanks(repo, r, now));
          if applies {
            return r.keep;
          }
        }
        i := i + 1;
      }
      return true;
    }

    /** The rules' verdict on a manifest; sparedBy names the first kept tag of a manifest that
        another of its tags condemns. */
    method Keep(m: Manifest, ghost repo: Repo) returns (keep: bool, sparedBy: Option<string>)
      requires Valid(repo) && m.doc.digest in repo
      ensures keep == RulesKeep(repo, rule, now, m)
      ensures sparedBy.Some? <==>
        !m.doc.IsReferrer() && keep && exists k | 0 <= k < |m.doc.tags| :: !TagKept(repo, rule, now, m, k)
      ensures sparedBy.Some? ==> exists k | 0 <= k < |m.doc.tags| ::
        && m.doc.tags[k] == sparedBy.value && TagKept(repo, rule, now, m, k)
        && forall j | 0 <= j < k :: !TagKept(repo, rule, now, m, j)
    {
      if m.doc.IsReferrer() {
        return true, None;
      }
      if |m.doc.tags| == 0 {
        keep := KeepUntagged(m, repo);
        return keep, None;
      }
      keep, sparedBy := false, None;
      var condemned := false;
      var k := 0;
      while k < |m.doc.tags|
        invariant k <= |m.doc.tags|
        invariant condemned <==> exists j | 0 <= j < k :: !TagKept(repo, rule, now, m, j)
        invariant keep <==> exists j | 0 <= j < k :: TagKept(repo, rule, now, m, j)
        invariant keep <==> sparedBy.Some?
        invariant keep ==> exists l | 0 <= l < k ::
          && m.doc.tags[l] == sparedBy.value && TagKept(repo, rule, now, m, l)
          && forall j | 0 <= j < l :: !TagKept(repo, rule, now, m, j)
      {
        var kept := KeepTag(m, m.doc.tags[k], repo);
        assert kept == TagKept(repo, rule, now, m, k);
        if !kept {
          condemned := true;
        } else if !keep {
          keep, sparedBy := true, Some(m.doc.tags[k]);
        }
        k := k + 1;
      }
      if !condemned {
        sparedBy := None;
      }
    }
  }

  /** The manifests of a list that take part in ranking. */
  ghost function EligibleOf(all: seq<Manifest>, tagged: bool): (r: seq<Manifest>)
    ensures forall m :: m in r <==> m in all && Eligible(m, tagged)
  {
    if all == [] then [] else
    var last := |all| - 1;
    assert all == all[..last] + [all[last]];
    EligibleOf(all[..last], tagged) + if Eligible(all[last], tagged) then [all[last]] else []
  }

  method Candidates(all: seq<Manifest>, needTagged: bool, needUntagged: bool)
    returns (withTags: seq<Manifest>, without: seq<Manifest>)
    ensures withTags == if needTagged then EligibleOf(all, true) else []
    ensures without == if needUntagged then EligibleOf(all, false) else []
  {
    withTags, without := [], [];
    var i := 0;
    while i < |all|
      invariant i <= |all|
      invariant withTags == if needTagged then EligibleOf(all[..i], true) else []
      invariant without == if needUntagged then EligibleOf(all[..i], false) else []
    {
      var m := all[i];
      assert all[..i + 1][..i] == all[..i];
      if !m.doc.IsReferrer() && !m.hasOwner {
        if |m.doc.tags| > 0 {
          if needTagged {
            withTags := withTags + [m];
          }
        } else if needUntagged {
          without := without + [m];
        }
      }
      i := i + 1;
    }
    assert all[..i] == all;
  }

  lemma {:induction false} EligibleDistinct(all: seq<Manifest>, tagged: bool)
    requires DistinctDigests(all)
    ensures DistinctDigests(EligibleOf(all, tagged))
  {
    if all != [] {
      var last := |all| - 1;
      EligibleDistinct(all[..last], tagged);
      var r := EligibleOf(all[..last], tagged);
      forall i | 0 <= i < |r| ensures r[i].doc.digest != all[last].doc.digest {
        assert r[i] in r;
        var k :| 0 <= k < last && all[k] == r[i];
      }
    }
  }

  ghost predicate Members(list: seq<Manifest>, repo: Repo)
  {
    forall i | 0 <= i < |list| :: list[i].doc.digest in repo && repo[list[i].doc.digest] == list[i]
  }

  lemma SortedMembers(list: seq<Manifest>, repo: Repo)
    requires WellKeyed(repo) && Members(list, repo) && DistinctDigests(list)
    ensures SortedSlice(DocsOf(repo), SortNewest(list)) && Members(SortNewest(list), repo)
  {
    var sorted := SortNewest(list);
    SortDistinct(list);
    forall i, j | 0 <= i < |list| && 0 <= j < |list| ensures list[i].doc.repository == list[j].doc.repository {
      assert DocsOf(repo)[list[i].doc.digest].repository == DocsOf(repo)[list[j].doc.digest].repository;
    }
    SortOrdered(list);
    hide SortNewest, NewestFirst, DistinctDigests, WellKeyed;
    forall i | 0 <= i < |sorted| ensures sorted[i].doc.digest in repo && repo[sorted[i].doc.digest] == sorted[i] {
      assert sorted[i] in sorted;
      var k :| 0 <= k < |list| && list[k] == sorted[i];
    }
  }

  lemma EligibleMembers(all: seq<Manifest>, repo: Repo, tagged: bool)
    requires Lists(all, repo)
    ensures Members(EligibleOf(all, tagged), repo)
    ensures forall d | d in repo && Eligible(repo[d], tagged) :: repo[d] in EligibleOf(all, tagged)
  {
    var list := EligibleOf(all, tagged);
    assert forall d | d in repo :: repo[d] in all;
    hide EligibleOf, Lists;
    forall i | 0 <= i < |list| ensures list[i].doc.digest in repo && repo[list[i].doc.digest] == list[i] {
      assert list[i] in list;
      ListedMember(all, repo, list[i]);
    }
  }

  lemma CandidatesComplete(all: seq<Manifest>, repo: Repo, tagged: bool)
    requires WellKeyed(repo) && Lists(all, repo)
    ensures SortedSlice(DocsOf(repo), SortNewest(EligibleOf(all, tagged)))
    ensures IsCandidates(repo, SortNewest(EligibleOf(all, tagged)), tagged)
  {
    hide *;
    var list := EligibleOf(all, tagged);
    ListsDistinct(all, repo);
    EligibleDistinct(all, tagged);
    EligibleMembers(all, repo, tagged);
    SortedMembers(list, repo);
    EligibleThroughout(list, SortNewest(list), tagged);
    CandidatesMean(repo, SortNewest(list), tagged);
  }

  lemma ListsDistinct(all: seq<Manifest>, repo: Repo)
    requires Lists(all, repo)
    ensures DistinctDigests(all)
  {
  }

  lemma CandidatesMean(repo: Repo, sorted: seq<Manifest>, tagged: bool)
    requires Members(sorted, repo) && forall i | 0 <= i < |sorted| :: Eligible(sorted[i], tagged)
    requires forall d | d in repo && Eligible(repo[d], tagged) :: repo[d] in sorted
    ensures IsCandidates(repo, sorted, tagged)
  {
    hide Eligible;
  }

  lemma EligibleThroughout(list: seq<Manifest>, sorted: seq<Manifest>, tagged: bool)
    requires forall m :: m in sorted <==> m in list
    requires forall m | m in list :: Eligible(m, tagged)
    ensures forall i | 0 <= i < |sorted| :: Eligible(sorted[i], tagged)
  {
    forall i | 0 <= i < |sorted| ensures Eligible(sorted[i], tagged) {
      assert sorted[i] in sorted;
    }
  }

  lemma ListedMember(all: seq<Manifest>, repo: Repo, m: Manifest)
    requires Lists(all, repo) && m in all
    ensures m.doc.digest in repo && repo[m.doc.digest] == m
  {
    var i :| 0 <= i < |all| && all[i] == m;
    assert all[i].doc.digest in repo;
  }

  method RankTagged(rule: RepoRule, now: int, candidates: seq<Manifest>, ghost repo: Repo)
    returns (ranks: seq<map<Digest, nat>>)
    requires WellKeyed(repo) && SortedSlice(DocsOf(repo), candidates)
    requires (exists i | 0 <= i < |rule.tagged| :: rule.tagged[i].common.newest != 0) ==>
             IsCandidates(repo, candidates, true)
    ensures |ranks| == |rule.tagged|
    ensures forall i | 0 <= i < |ranks| && rule.tagged[i].common.newest != 0 ::
              Ranking(DocsOf(repo), TaggedRanks(repo, rule.tagged[i], now), ranks[i])
  {
    hide Ranking, SortedSlice;
    ranks := [];
    var i := 0;
    while i < |rule.tagged|
      invariant |ranks| == i <= |rule.tagged|
      invariant forall k | 0 <= k < i && rule.tagged[k].common.newest != 0 ::
        Ranking(DocsOf(repo), TaggedRanks(repo, rule.tagged[k], now), ranks[k])
    {
      var r := rule.tagged[i];
      var positions: map<Digest, nat> := map[];
      if r.common.newest != 0 {
        positions := Rank(candidates, m => RankedByTag(r, m, now), DocsOf(repo));
        SelectedCandidates(repo, candidates, true, m => RankedByTag(r, m, now));
        assert Selected(candidates, m => RankedByTag(r, m, now)) == TaggedRanks(repo, r, now);
      }
      ranks := ranks + [positions];
      i := i + 1;
    }
  }

  lemma SelectedCandidates(repo: Repo, candidates: seq<Manifest>, tagged: bool, pred: Manifest -> bool)
    requires WellKeyed(repo) && IsCandidates(repo, candidates, tagged)
    ensures Selected(candidates, pred) == set d | d in repo && Eligible(repo[d], tagged) && pred(repo[d])
  {
    forall d | d in repo && Eligible(repo[d], tagged) && pred(repo[d]) ensures d in Selected(candidates, pred) {
      var i :| 0 <= i < |candidates| && candidates[i] == repo[d];
      assert DocsOf(repo)[d].digest == d;
    }
  }

  method RankUntagged(rule: RepoRule, now: int, candidates: seq<Manifest>, ghost repo: Repo)
    returns (ranks: seq<map<Digest, nat>>)
    requires WellKeyed(repo) && SortedSlice(DocsOf(repo), candidates)
    requires (exists i | 0 <= i < |rule.untagged| :: rule.untagged[i].newest != 0) ==>
             IsCandidates(repo, candidates, false)
    ensures |ranks| == |rule.untagged|
    ensures forall i | 0 <= i < |ranks| && rule.untagged[i].newest != 0 ::
              Ranking(DocsOf(repo), UntaggedRanks(repo, rule.untagged[i], now), ranks[i])
  {
    hide Ranking, SortedSlice;
    ranks := [];
    var i := 0;
    while i < |rule.untagged|
      invariant |ranks| == i <= |rule.untagged|
      invariant forall k | 0 <= k < i && rule.untagged[k].newest != 0 ::
        Ranking(DocsOf(repo), UntaggedRanks(repo, rule.untagged[k], now), ranks[k])
    {
      var r := rule.untagged[i];
      var positions: map<Digest, nat> := map[];
      if r.newest != 0 {
        positions := Rank(candidates, m => Criteria(r, m, now), DocsOf(repo));
        SelectedCandidates(repo, candidates, false, m => Criteria(r, m, now));
        assert Selected(candidates, m => Criteria(r, m, now)) == UntaggedRanks(repo, r, now);
      }
      ranks := ranks + [positions];
      i := i + 1;
    }
  }

  // ----- what a rank constraint selects

  ghost function Window(docs: Docs, ranked: set<Digest>, newest: int): set<Digest>
    requires ranked <= docs.Keys
  {
    set d | d in ranked && InWindow(newest, Position(docs, ranked, d))
  }

  /** N selects the N newest of the ranked manifests, or all of them; -N exactly the rest. */
  lemma WindowExact(docs: Docs, ranked: set<Digest>, n: int)
    requires WellKeyedDocs(docs) && ranked <= docs.Keys && n > 0
    ensures |Window(docs, ranked, n)| == if n < |ranked| then n else |ranked|
    ensures forall d, e | d in Window(docs, ranked, n) && e in ranked - Window(docs, ranked, n) ::
              Newer(docs[d], docs[e])
    ensures Window(docs, ranked, -n) == ranked - Window(docs, ranked, n)
  {
    NewestCount(docs, ranked, n);
    assert Window(docs, ranked, n) == Newest(docs, ranked, n) by {
      hide Position;
    }
    forall d, e | d in Window(docs, ranked, n) && e in ranked - Window(docs, ranked, n)
      ensures Newer(docs[d], docs[e])
    {
      PositionOrder(docs, ranked, d, e);
      hide Position;
    }
    assert Window(docs, ranked, -n) == ranked - Window(docs, ranked, n) by {
      hide Position;
    }
  }

  /** By update times: nothing left out of the window of N is newer than anything in it, nor in that of
      -N older; at one time the digests decide. */
  lemma WindowByTime(docs: Docs, ranked: set<Digest>, n: int, d: Digest, e: Digest)
    requires WellKeyedDocs(docs) && ranked <= docs.Keys && n != 0
    requires d in Window(docs, ranked, n) && e in ranked - Window(docs, ranked, n)
    ensures n > 0 ==> docs[e].updated < docs[d].updated || (docs[e].updated == docs[d].updated && Precedes(d, e))
    ensures n < 0 ==> docs[d].updated < docs[e].updated || (docs[d].updated == docs[e].updated && Precedes(e, d))
  {
    hide Position, Precedes;
    PositionsByTime(docs, ranked, d, e);
    PositionsByTime(docs, ranked, e, d);
  }

  /** Keep the N newest, and delete the rest. */
  function NewestRule(repository: string, n: int): RepoRule
  {
    var any := CommonRule(None, None, None, 0, 0, 0, false);
    RepoRule(Anchored(repository), true, false, false, [any],
             [TaggedRule(None, any.(newest := n, keep := true)), TaggedRule(None, any)])
  }

  /** The images of which fewer than N are newer. */
  ghost function NewerImages(repo: Repo, d: Digest): set<Digest>
    requires d in repo
  {
    set x | x in repo && (forall y :: !Refers(repo[x].doc, y)) && !repo[x].hasOwner && repo[x].doc.tags != [] &&
            (repo[x].doc.updated > repo[d].doc.updated ||
             (repo[x].doc.updated == repo[d].doc.updated && Precedes(x, d)))
  }

  /** "newest: N" followed by deleting everything keeps, of the tagged images, those that fewer than N
      others are newer than. */
  lemma NewestKept(repo: Repo, repository: string, n: int, now: int, d: Digest)
    requires WellKeyed(repo) && n > 0 && d in repo
    requires (forall y :: !Refers(repo[d].doc, y)) && !repo[d].hasOwner && repo[d].doc.tags != []
    ensures repo[d].doc.digest == d
    ensures RulesKeep(repo, NewestRule(repository, n), now, repo[d]) <==> |NewerImages(repo, d)| < n
  {
    var rule, m := NewestRule(repository, n), repo[d];
    assert DocsOf(repo)[d].digest == d;
    RefersExact(m.doc);
    var ranked := TaggedRanks(repo, rule.tagged[0], now);
    forall x ensures x in ranked <==> x in repo && (forall y :: !Refers(repo[x].doc, y)) && !repo[x].hasOwner &&
                                        repo[x].doc.tags != []
    {
      RanksExact(repo, rule.tagged[0], rule.untagged[0], now, x);
    }
    PositionCounts(DocsOf(repo), ranked, d);
    hide Refers, Precedes, Position;
    assert NewerImages(repo, d) ==
           (set x | x in ranked && (DocsOf(repo)[x].updated > DocsOf(repo)[d].updated ||
                                    (DocsOf(repo)[x].updated == DocsOf(repo)[d].updated && Precedes(x, d))));
    hide TaggedRanks, NewerImages;
    forall k | 0 <= k < |m.doc.tags|
      ensures TagKept(repo, rule, now, m, k) <==> |NewerImages(repo, d)| < n
    {
      assert TagVerdict(repo, rule, now, m, m.doc.tags[k], 1) == false;
    }
    assert TagKept(repo, rule, now, m, 0) <==> |NewerImages(repo, d)| < n;
  }

  newtype int64 = i: int | -0x8000_0000_0000_0000 <= i < 0x8000_0000_0000_0000

  /** The test as it is computed: every operation has to stay within 64 bits, which negating a
      position does and negating N would not. */
  predicate InWindow64(newest: int64, position: int64)
    requires position >= 0
  {
    if newest > 0 then position < newest else -position <= newest
  }

  /** In 64-bit arithmetic the test is exact, down to the minimum. */
  lemma WindowIn64Bits(newest: int64, position: int64)
    requires position >= 0
    ensures InWindow64(newest, position) <==> InWindow(newest as int, position as int)
  {
  }

  /** Two repositories that agree on the manifests a rule ranks, tagged or not, give them the same
      positions, whatever else they hold. */
  lemma RanksIndependent(docs: Docs, other: Docs, ranked: set<Digest>, d: Digest)
    requires ranked <= docs.Keys && ranked <= other.Keys && d in ranked && forall x | x in ranked :: docs[x] == other[x]
    ensures Position(docs, ranked, d) == Position(other, ranked, d)
  {
    assert (set x | x in ranked && Newer(docs[x], docs[d])) == (set x | x in ranked && Newer(other[x], other[d]));
  }

  /** Adding a referrer, an index child or a manifest the rule does not match leaves what a rule
      ranks, and with it every position, as it was. */
  lemma OutsiderTakesNoSlot(repo: Repo, m: Manifest, tagged: TaggedRule, untagged: CommonRule, now: int)
    requires m.doc.digest !in repo
    ensures var grown := repo[m.doc.digest := m];
            && (!(Eligible(m, true) && RankedByTag(tagged, m, now)) ==>
                  && TaggedRanks(grown, tagged, now) == TaggedRanks(repo, tagged, now)
                  && forall d | d in TaggedRanks(repo, tagged, now) ::
                       Position(DocsOf(grown), TaggedRanks(repo, tagged, now), d) ==
                       Position(DocsOf(repo), TaggedRanks(repo, tagged, now), d))
            && (!(Eligible(m, false) && Criteria(untagged, m, now)) ==>
                  && UntaggedRanks(grown, untagged, now) == UntaggedRanks(repo, untagged, now)
                  && forall d | d in UntaggedRanks(repo, untagged, now) ::
                       Position(DocsOf(grown), UntaggedRanks(repo, untagged, now), d) ==
                       Position(DocsOf(repo), UntaggedRanks(repo, untagged, now), d))
  {
    var grown := repo[m.doc.digest := m];
    forall d | d in TaggedRanks(repo, tagged, now)
      ensures Position(DocsOf(grown), TaggedRanks(repo, tagged, now), d) ==
              Position(DocsOf(repo), TaggedRanks(repo, tagged, now), d)
    {
      RanksIndependent(DocsOf(grown), DocsOf(repo), TaggedRanks(repo, tagged, now), d);
    }
    forall d | d in UntaggedRanks(repo, untagged, now)
      ensures Position(DocsOf(grown), UntaggedRanks(repo, untagged, now), d) ==
              Position(DocsOf(repo), UntaggedRanks(repo, untagged, now), d)
    {
      RanksIndependent(DocsOf(grown), DocsOf(repo), UntaggedRanks(repo, untagged, now), d);
    }
  }
}
