/** Repository rule lookup and dead-rule warnings
    (internal/rules/matcher.go, internal/rules/warnings.go). */
module Matcher {
  import opened Manifests
  import opened Rules

  ghost predicate MatchesAt(rules: seq<RepoRule>, i: nat, name: string)
  {
    i < |rules| && rules[i].repo.Matches(name)
  }

  /** The index a sequential scan stops at; |rules| when no rule matches. */
  ghost predicate FirstMatch(rules: seq<RepoRule>, name: string, first: nat)
  {
    && first <= |rules|
    && (first < |rules| ==> MatchesAt(rules, first, name))
    && forall i | 0 <= i < first :: !MatchesAt(rules, i, name)
  }

  /** The plain name each rule's pattern spells, if it spells one. */
  ghost function Names(rules: seq<RepoRule>): (names: seq<Option<string>>)
    ensures |names| == |rules|
    ensures forall i | 0 <= i < |rules| :: names[i] == LiteralName(rules[i].repo.Text())
  {
    seq(|rules|, i requires 0 <= i < |rules| => LiteralName(rules[i].repo.Text()))
  }

  /** Each indexed name leads to the first literal rule of that name among the first n rules. */
  ghost predicate LiteralsIndexed(names: seq<Option<string>>, n: nat, literals: map<string, nat>)
    requires n <= |names|
  {
    && (forall name | name in literals :: literals[name] < n && names[literals[name]] == Some(name))
    && (forall i | 0 <= i < n && names[i].Some? :: names[i].value in literals && literals[names[i].value] <= i)
  }

  /** The patterns are the other rules, in order. */
  ghost predicate PatternsIndexed(names: seq<Option<string>>, n: nat, patterns: seq<nat>)
    requires n <= |names|
  {
    && (forall k | 0 <= k < |patterns| :: patterns[k] < n && names[patterns[k]].None?)
    && (forall k, l | 0 <= k < l < |patterns| :: patterns[k] < patterns[l])
    && (forall i | 0 <= i < n && names[i].None? :: i in patterns)
  }

  lemma LiteralsStep(names: seq<Option<string>>, n: nat, literals: map<string, nat>)
    requires n < |names| && LiteralsIndexed(names, n, literals)
    ensures LiteralsIndexed(names, n + 1,
              if names[n].Some? && names[n].value !in literals then literals[names[n].value := n] else literals)
  {
  }

  lemma PatternsStep(names: seq<Option<string>>, n: nat, patterns: seq<nat>)
    requires n < |names| && PatternsIndexed(names, n, patterns)
    ensures PatternsIndexed(names, n + 1, if names[n].None? then patterns + [n] else patterns)
  {
    assert forall i :: i in patterns + [n] <==> i in patterns || i == n;
  }

  lemma NothingIndexed(names: seq<Option<string>>)
    ensures LiteralsIndexed(names, 0, map[]) && PatternsIndexed(names, 0, [])
  {
  }

  class RepositoryMatcher {
    const rules: seq<RepoRule>
    const literals: map<string, nat>
    const patterns: seq<nat>

    ghost predicate Valid()
    {
      LiteralsIndexed(Names(rules), |rules|, literals) && PatternsIndexed(Names(rules), |rules|, patterns)
    }

    constructor (ruleSet: seq<RepoRule>)
      ensures Valid() && rules == ruleSet
    {
      hide LiteralsIndexed, PatternsIndexed, LiteralName;
      ghost var names := Names(ruleSet);
      NothingIndexed(names);
      var lits: map<string, nat> := map[];
      var pats: seq<nat> := [];
      var i := 0;
      while i < |ruleSet|
        invariant i <= |ruleSet|
        invariant LiteralsIndexed(names, i, lits) && PatternsIndexed(names, i, pats)
      {
        var name := ScanLiteralName(ruleSet[i].repo.Text());
        LiteralsStep(names, i, lits);
        PatternsStep(names, i, pats);
        if name.Some? {
          if name.value !in lits {
            lits := lits[name.value := i];
          }
        } else {
          pats := pats + [i];
        }
        i := i + 1;
      }
      rules, literals, patterns := ruleSet, lits, pats;
    }

    /** The indexed lookup finds the rule a sequential first-match scan finds. */
    method Match(repository: string) returns (r: nat)
      requires Valid()
      ensures FirstMatch(rules, repository, r)
    {
      var first := if repository in literals then literals[repository] else |rules|;
      LiteralBefore(rules, literals, repository, first);
      var k := 0;
      while k < |patterns|
        invariant k <= |patterns|
        invariant forall l | 0 <= l < k :: patterns[l] < first && !MatchesAt(rules, patterns[l], repository)
      {
        var i := patterns[k];
        if i >= first {
          break;
        }
        if rules[i].repo.Matches(repository) {
          NoneBefore(rules, literals, patterns, repository, first, k, i);
          return i;
        }
        k := k + 1;
      }
      NoneBefore(rules, literals, patterns, repository, first, k, first);
      return first;
    }
  }

  /** Among the literal rules, only those of the very name match it. */
  lemma LiteralBefore(rules: seq<RepoRule>, literals: map<string, nat>, name: string, first: nat)
    requires LiteralsIndexed(Names(rules), |rules|, literals)
    requires first == if name in literals then literals[name] else |rules|
    ensures first < |rules| ==> MatchesAt(rules, first, name)
    ensures forall i {:trigger MatchesAt(rules, i, name)} | 0 <= i < first && Names(rules)[i].Some? ::
              !MatchesAt(rules, i, name)
  {
    if first < |rules| {
      LiteralLanguage(rules[first].repo, name, name);
    }
    forall i | 0 <= i < first && Names(rules)[i].Some? ensures !MatchesAt(rules, i, name) {
      LiteralLanguage(rules[i].repo, Names(rules)[i].value, name);
    }
  }

  lemma NoneBefore(rules: seq<RepoRule>, literals: map<string, nat>, patterns: seq<nat>, name: string,
                   first: nat, k: nat, bound: nat)
    requires PatternsIndexed(Names(rules), |rules|, patterns) && k <= |patterns| && bound <= first <= |rules|
    requires forall i {:trigger MatchesAt(rules, i, name)} | 0 <= i < first && Names(rules)[i].Some? ::
               !MatchesAt(rules, i, name)
    requires forall l | 0 <= l < k :: !MatchesAt(rules, patterns[l], name)
    requires k < |patterns| ==> bound <= patterns[k]
    ensures forall i | 0 <= i < bound :: !MatchesAt(rules, i, name)
  {
    forall i | 0 <= i < bound ensures !MatchesAt(rules, i, name) {
      if Names(rules)[i].None? {
        var l :| 0 <= l < |patterns| && patterns[l] == i;
        assert l < k;
      }
    }
  }

  // ----- rules that can never apply

  /** What can name a repository: some text on one line. */
  ghost predicate RepositoryName(name: string)
  {
    name != "" && '\n' !in name
  }

  /** shadow is the earliest rule before i that makes rule i unreachable: one matching every
      repository name or, for a literal rule, one matching its name. */
  ghost predicate Shadows(rules: seq<RepoRule>, i: nat, shadow: nat)
    requires i < |rules|
  {
    && shadow < i
    && Covers(rules, i, shadow)
    && forall j | 0 <= j < shadow :: !Covers(rules, i, j)
  }

  ghost predicate Covers(rules: seq<RepoRule>, i: nat, j: nat)
    requires i < |rules|
  {
    j < |rules| && (
      || rules[j].repo.MatchesAnyName()
      || (Names(rules)[i].Some? && MatchesAt(rules, j, Names(rules)[i].value)))
  }

  ghost predicate CatchAll(rules: seq<RepoRule>, n: nat, catchAll: Option<nat>)
    requires n <= |rules|
  {
    match catchAll
    case Some(c) => c < n && rules[c].repo.MatchesAnyName() && forall j | 0 <= j < c :: !rules[j].repo.MatchesAnyName()
    case None => forall j | 0 <= j < n :: !rules[j].repo.MatchesAnyName()
  }

  /** The walk indexes the rules before the first catch-all only. */
  function Horizon(n: nat, catchAll: Option<nat>): nat
  {
    if catchAll.Some? then catchAll.value else n
  }

  ghost predicate Indexed(rules: seq<RepoRule>, n: nat, literals: map<string, nat>, patterns: seq<nat>,
                          catchAll: Option<nat>)
    requires n <= |rules|
  {
    && CatchAll(rules, n, catchAll)
    && LiteralsIndexed(Names(rules), Horizon(n, catchAll), literals)
    && PatternsIndexed(Names(rules), Horizon(n, catchAll), patterns)
  }

  /** A warned rule names the earliest rule covering it; no rule covers one left unwarned. */
  ghost predicate WarnedAt(rules: seq<RepoRule>, i: nat, shadow: Option<nat>)
    requires i < |rules|
  {
    match shadow
    case Some(s) => Shadows(rules, i, s)
    case None => forall j | 0 <= j < i :: !Covers(rules, i, j)
  }

  function Get(shadows: map<nat, nat>, i: nat): Option<nat>
  {
    if i in shadows then Some(shadows[i]) else None
  }

  lemma IndexedNone(rules: seq<RepoRule>)
    ensures Indexed(rules, 0, map[], [], None)
  {
  }

  lemma IndexedOnward(rules: seq<RepoRule>, n: nat, literals: map<string, nat>, patterns: seq<nat>,
                      catchAll: Option<nat>)
    requires n < |rules| && catchAll.Some? && Indexed(rules, n, literals, patterns, catchAll)
    ensures Indexed(rules, n + 1, literals, patterns, catchAll)
  {
  }

  method RepositoryShadows(rules: seq<RepoRule>) returns (shadows: map<nat, nat>)
    ensures forall i | 0 <= i < |rules| :: WarnedAt(rules, i, Get(shadows, i))
    ensures forall i | i in shadows :: i < |rules|
  {
    hide WarnedAt, Indexed;
    shadows := map[];
    var literals: map<string, nat> := map[];
    var patterns: seq<nat> := [];
    var catchAll: Option<nat> := None;
    var i := 0;
    IndexedNone(rules);
    while i < |rules|
      invariant i <= |rules|
      invariant Indexed(rules, i, literals, patterns, catchAll)
      invariant forall k | 0 <= k < i :: WarnedAt(rules, k, Get(shadows, k))
      invariant forall k | k in shadows :: k < i
    {
      var literal := ScanLiteralName(rules[i].repo.Text());
      var shadow := ShadowOf(rules, i, literal, literals, patterns, catchAll);
      ghost var before := shadows;
      if shadow.Some? {
        shadows := shadows[i := shadow.value];
      }
      forall k | 0 <= k <= i ensures WarnedAt(rules, k, Get(shadows, k)) {
        assert Get(shadows, k) == if k == i then shadow else Get(before, k);
      }
      if catchAll.None? {
        literals, patterns, catchAll := IndexRule(rules, i, literal, literals, patterns);
      } else {
        IndexedOnward(rules, i, literals, patterns, catchAll);
      }
      i := i + 1;
    }
  }

  /** The loop body after the warning, as long as no rule matched every name. */
  method IndexRule(rules: seq<RepoRule>, i: nat, literal: Option<string>, literals: map<string, nat>,
                   patterns: seq<nat>)
    returns (literals': map<string, nat>, patterns': seq<nat>, catchAll: Option<nat>)
    requires i < |rules| && literal == Names(rules)[i] && Indexed(rules, i, literals, patterns, None)
    ensures Indexed(rules, i + 1, literals', patterns', catchAll)
  {
    hide LiteralName, FixedText;
    literals', patterns', catchAll := literals, patterns, None;
    LiteralsStep(Names(rules), i, literals);
    PatternsStep(Names(rules), i, patterns);
    if literal.Some? {
      LiteralNotAny(rules[i].repo);
      if literal.value !in literals {
        literals' := literals[literal.value := i];
      }
    } else if rules[i].repo.MatchesAnyName() {
      catchAll := Some(i);
    } else {
      patterns' := patterns + [i];
    }
  }

  /** No literal rule before the bound covers the literal rule i. */
  lemma EarlierLiterals(rules: seq<RepoRule>, i: nat, name: string, n: nat, literals: map<string, nat>, bound: nat)
    requires i < |rules| && Names(rules)[i] == Some(name) && bound <= n <= i
    requires LiteralsIndexed(Names(rules), n, literals) && (name in literals ==> bound <= literals[name])
    ensures forall j | 0 <= j < bound && Names(rules)[j].Some? :: !Covers(rules, i, j)
  {
    hide LiteralName, FixedText;
    forall j | 0 <= j < bound && Names(rules)[j].Some? ensures !Covers(rules, i, j) {
      LiteralNotAny(rules[j].repo);
      LiteralLanguage(rules[j].repo, Names(rules)[j].value, name);
    }
  }

  /** Once the first k patterns are excluded, nothing up to the k-th covers rule i. */
  lemma EarlierRules(rules: seq<RepoRule>, i: nat, name: string, n: nat, patterns: seq<nat>, k: nat, upto: nat)
    requires i < |rules| && Names(rules)[i] == Some(name) && upto <= n <= i && k <= |patterns|
    requires PatternsIndexed(Names(rules), n, patterns) && forall j | 0 <= j < n :: !rules[j].repo.MatchesAnyName()
    requires forall j | 0 <= j < upto && Names(rules)[j].Some? :: !Covers(rules, i, j)
    requires forall l | 0 <= l < k :: !MatchesAt(rules, patterns[l], name)
    requires k < |patterns| ==> upto <= patterns[k]
    ensures forall j | 0 <= j < upto :: !Covers(rules, i, j)
  {
    forall j | 0 <= j < upto ensures !Covers(rules, i, j) {
      if Names(rules)[j].None? {
        var l :| 0 <= l < |patterns| && patterns[l] == j;
        assert l < k;
      }
    }
  }

  /** The loop body up to the warning: the earliest rule covering rule i, if any. */
  method ShadowOf(rules: seq<RepoRule>, i: nat, literal: Option<string>, literals: map<string, nat>, patterns: seq<nat>,
                  catchAll: Option<nat>) returns (shadow: Option<nat>)
    requires i < |rules| && literal == Names(rules)[i] && Indexed(rules, i, literals, patterns, catchAll)
    ensures WarnedAt(rules, i, shadow)
  {
    hide LiteralName, FixedText;
    shadow := catchAll;
    if literal.Some? {
      ghost var n := Horizon(i, catchAll);
      if literal.value in literals && (shadow.None? || literals[literal.value] < shadow.value) {
        shadow := Some(literals[literal.value]);
        LiteralLanguage(rules[shadow.value].repo, literal.value, literal.value);
      }
      ghost var bound := Horizon(i, shadow);
      EarlierLiterals(rules, i, literal.value, n, literals, bound);
      var k := 0;
      while k < |patterns|
        invariant k <= |patterns|
        invariant forall l | 0 <= l < k :: !MatchesAt(rules, patterns[l], literal.value)
      {
        var j := patterns[k];
        if shadow.Some? && j >= shadow.value {
          break;
        }
        if rules[j].repo.Matches(literal.value) {
          EarlierRules(rules, i, literal.value, n, patterns, k, j);
          return Some(j);
        }
        k := k + 1;
      }
      EarlierRules(rules, i, literal.value, n, patterns, k, bound);
    }
  }

  /** A rule that is warned about is never the first match of any repository name. */
  lemma ShadowedNeverFirst(rules: seq<RepoRule>, i: nat, shadow: nat, name: string)
    requires i < |rules| && Shadows(rules, i, shadow) && RepositoryName(name)
    ensures !FirstMatch(rules, name, i)
  {
    if Names(rules)[i].Some? {
      LiteralLanguage(rules[i].repo, Names(rules)[i].value, name);
    }
    assert MatchesAt(rules, i, name) ==> MatchesAt(rules, shadow, name);
  }

  /** A literal rule is covered exactly when an earlier rule matches its name, which makes it
      unreachable; an uncovered literal rule is the first match of its name. */
  lemma LiteralCoveredExactly(rules: seq<RepoRule>, i: nat, name: string)
    requires i < |rules| && Names(rules)[i] == Some(name)
    ensures (exists j | 0 <= j < i :: Covers(rules, i, j)) <==> exists j | 0 <= j < i :: MatchesAt(rules, j, name)
    ensures (forall j | 0 <= j < i :: !Covers(rules, i, j)) <==> FirstMatch(rules, name, i)
  {
    LiteralNameExact(rules[i].repo.Text(), name);
    LiteralLanguage(rules[i].repo, name, name);
    assert forall k | 0 <= k < |name| :: RepoNameChar(name[k]);
    forall j | 0 <= j < i ensures Covers(rules, i, j) <==> MatchesAt(rules, j, name) {
    }
    if forall j | 0 <= j < i :: !Covers(rules, i, j) {
      forall j | 0 <= j < i ensures !MatchesAt(rules, j, name) {
        assert !Covers(rules, i, j);
      }
    } else {
      var j :| 0 <= j < i && Covers(rules, i, j);
      assert MatchesAt(rules, j, name);
    }
  }
}
