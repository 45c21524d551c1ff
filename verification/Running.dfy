/** Which manifests an image inventory marks as running (runningMatch in internal/pruner/stats.go). */
module Running {
  import opened Manifests
  import opened Rules

  /** The first tagged rule from i on that matches the tag and the digest keeps; none does not. */
  ghost predicate TagRuns(rule: RepoRule, m: Manifest, tag: string, i: nat)
    requires i <= |rule.tagged|
    decreases |rule.tagged| - i
  {
    i < |rule.tagged| && (
      var r := rule.tagged[i];
      if MatchString(r.tag, tag) && MatchAny(r.common.digest, [m.doc.digest]) then r.common.keep
      else TagRuns(rule, m, tag, i + 1))
  }

  ghost predicate UntaggedRuns(rule: RepoRule, m: Manifest, i: nat)
    requires i <= |rule.untagged|
    decreases |rule.untagged| - i
  {
    i < |rule.untagged| && (
      if MatchAny(rule.untagged[i].digest, [m.doc.digest]) then rule.untagged[i].keep
      else UntaggedRuns(rule, m, i + 1))
  }

  /** One kept tag is enough. */
  ghost predicate RunsUnder(rule: RepoRule, m: Manifest)
  {
    if m.doc.tags == [] then UntaggedRuns(rule, m, 0)
    else exists k | 0 <= k < |m.doc.tags| :: TagRuns(rule, m, m.doc.tags[k], 0)
  }

  /** Only the first rule from i on that matches the repository counts. */
  ghost predicate Runs(rules: seq<RepoRule>, m: Manifest, i: nat)
    requires i <= |rules|
    decreases |rules| - i
  {
    i < |rules| && (
      if rules[i].repo.Matches(m.doc.repository) then RunsUnder(rules[i], m) else Runs(rules, m, i + 1))
  }

  /** The rule names the tag and the digest, where it names any. */
  ghost predicate Hits(tagRegex: Option<Regex>, r: CommonRule, m: Manifest, tag: string)
  {
    && (tagRegex.None? || tagRegex.value.Matches(tag))
    && (r.digest.None? || r.digest.value.Matches(m.doc.digest))
  }

  ghost predicate FirstHit(rule: RepoRule, m: Manifest, tag: string, i: nat, j: nat)
  {
    && i <= j < |rule.tagged| && Hits(rule.tagged[j].tag, rule.tagged[j].common, m, tag)
    && forall k | i <= k < j :: !Hits(rule.tagged[k].tag, rule.tagged[k].common, m, tag)
  }

  ghost predicate FirstUntaggedHit(rule: RepoRule, m: Manifest, i: nat, j: nat)
  {
    && i <= j < |rule.untagged| && Hits(None, rule.untagged[j], m, "")
    && forall k | i <= k < j :: !Hits(None, rule.untagged[k], m, "")
  }

  ghost predicate FirstNamed(rules: seq<RepoRule>, m: Manifest, i: nat, j: nat)
  {
    && i <= j < |rules| && rules[j].repo.Matches(m.doc.repository)
    && forall k | i <= k < j :: !rules[k].repo.Matches(m.doc.repository)
  }

  /** A tag runs exactly if the first rule that hits it and the digest keeps. */
  lemma {:induction false} TagRunsFirst(rule: RepoRule, m: Manifest, tag: string, i: nat)
    requires i <= |rule.tagged|
    ensures TagRuns(rule, m, tag, i) <==> exists j: nat :: FirstHit(rule, m, tag, i, j) && rule.tagged[j].common.keep
    decreases |rule.tagged| - i
  {
    assert [m.doc.digest][0] == m.doc.digest;
    if i < |rule.tagged| {
      TagRunsFirst(rule, m, tag, i + 1);
      forall j: nat ensures FirstHit(rule, m, tag, i, j) <==>
                       if Hits(rule.tagged[i].tag, rule.tagged[i].common, m, tag) then i == j
                       else FirstHit(rule, m, tag, i + 1, j)
      {
      }
      hide FirstHit;
    }
  }

  lemma {:induction false} UntaggedRunsFirst(rule: RepoRule, m: Manifest, i: nat)
    requires i <= |rule.untagged|
    ensures UntaggedRuns(rule, m, i) <==> exists j: nat :: FirstUntaggedHit(rule, m, i, j) && rule.untagged[j].keep
    decreases |rule.untagged| - i
  {
    assert [m.doc.digest][0] == m.doc.digest;
    if i < |rule.untagged| {
      UntaggedRunsFirst(rule, m, i + 1);
      forall j: nat ensures FirstUntaggedHit(rule, m, i, j) <==>
                       if Hits(None, rule.untagged[i], m, "") then i == j else FirstUntaggedHit(rule, m, i + 1, j)
      {
      }
      hide FirstUntaggedHit;
    }
  }

  lemma {:induction false} RunsFirst(rules: seq<RepoRule>, m: Manifest, i: nat)
    requires i <= |rules|
    ensures Runs(rules, m, i) <==> exists j: nat :: FirstNamed(rules, m, i, j) && RunsUnder(rules[j], m)
    decreases |rules| - i
  {
    hide RunsUnder;
    if i < |rules| {
      RunsFirst(rules, m, i + 1);
      forall j: nat ensures FirstNamed(rules, m, i, j) <==>
                       if rules[i].repo.Matches(m.doc.repository) then i == j else FirstNamed(rules, m, i + 1, j)
      {
      }
      hide FirstNamed;
    }
  }

  /** A manifest runs exactly if, by the first rule that names its repository, the first rule to hit it
      keeps it: for an untagged one, of those for untagged manifests; for a tagged one, of those for tags,
      for one of its tags. */
  lemma RunsExact(rules: seq<RepoRule>, m: Manifest)
    ensures Runs(rules, m, 0) <==>
            exists j: nat :: FirstNamed(rules, m, 0, j) &&
              if m.doc.tags == []
              then exists l: nat :: FirstUntaggedHit(rules[j], m, 0, l) && rules[j].untagged[l].keep
              else exists tag, l: nat :: tag in m.doc.tags && FirstHit(rules[j], m, tag, 0, l) &&
                                         rules[j].tagged[l].common.keep
  {
    RunsFirst(rules, m, 0);
    forall j | 0 <= j < |rules|
      ensures RunsUnder(rules[j], m) <==>
              if m.doc.tags == []
              then exists l: nat :: FirstUntaggedHit(rules[j], m, 0, l) && rules[j].untagged[l].keep
              else exists tag, l: nat :: tag in m.doc.tags && FirstHit(rules[j], m, tag, 0, l) &&
                                         rules[j].tagged[l].common.keep
    {
      UnderExact(rules[j], m);
    }
    hide RunsUnder, Runs, FirstHit, FirstUntaggedHit;
  }

  lemma UnderExact(rule: RepoRule, m: Manifest)
    ensures RunsUnder(rule, m) <==>
            if m.doc.tags == []
            then exists l: nat :: FirstUntaggedHit(rule, m, 0, l) && rule.untagged[l].keep
            else exists tag, l: nat :: tag in m.doc.tags && FirstHit(rule, m, tag, 0, l) && rule.tagged[l].common.keep
  {
    UntaggedRunsFirst(rule, m, 0);
    forall tag ensures TagRuns(rule, m, tag, 0) <==>
                       exists l: nat :: FirstHit(rule, m, tag, 0, l) && rule.tagged[l].common.keep
    {
      TagRunsFirst(rule, m, tag, 0);
    }
    hide TagRuns, UntaggedRuns, FirstHit, FirstUntaggedHit;
    if tag, l: nat :| tag in m.doc.tags && FirstHit(rule, m, tag, 0, l) && rule.tagged[l].common.keep {
      var k :| 0 <= k < |m.doc.tags| && m.doc.tags[k] == tag;
      assert TagRuns(rule, m, m.doc.tags[k], 0);
    }
  }

  method RunningMatch(m: Manifest, rules: seq<RepoRule>) returns (running: bool)
    ensures running == Runs(rules, m, 0)
  {
    var i := 0;
    while i < |rules|
      invariant i <= |rules| && Runs(rules, m, 0) == Runs(rules, m, i)
    {
      var rule := rules[i];
      if rule.repo.Matches(m.doc.repository) {
        running := MatchUnder(rule, m);
        return;
      }
      i := i + 1;
    }
    return false;
  }

  method MatchUnder(rule: RepoRule, m: Manifest) returns (running: bool)
    ensures running == RunsUnder(rule, m)
  {
    if |m.doc.tags| > 0 {
      var k := 0;
      while k < |m.doc.tags|
        invariant k <= |m.doc.tags|
        invariant forall j | 0 <= j < k :: !TagRuns(rule, m, m.doc.tags[j], 0)
      {
        var tag := m.doc.tags[k];
        var j := 0;
        while j < |rule.tagged|
          invariant j <= |rule.tagged|
          invariant TagRuns(rule, m, tag, 0) == TagRuns(rule, m, tag, j)
        {
          var r := rule.tagged[j];
          if MatchString(r.tag, tag) && MatchAny(r.common.digest, [m.doc.digest]) {
            if r.common.keep {
              return true;
            }
            break;
          }
          j := j + 1;
        }
        k := k + 1;
      }
      return false;
    }
    var j := 0;
    while j < |rule.untagged|
      invariant j <= |rule.untagged|
      invariant UntaggedRuns(rule, m, 0) == UntaggedRuns(rule, m, j)
    {
      var r := rule.untagged[j];
      if MatchAny(r.digest, [m.doc.digest]) {
        return r.keep;
      }
      j := j + 1;
    }
    return false;
  }
}
