/** Layered topological sorting of a multigraph (deletionBatches in internal/registry/delete.go). */
module Batches {
  import opened Sums

  // ----- paths and cycles

  /** A walk upwards: each node is followed by one of its parents. */
  ghost predicate Upward<T>(parents: map<T, seq<T>>, path: seq<T>)
  {
    && path != [] && path[0] in parents
    && (|path| > 1 ==> path[1] in parents[path[0]] && Upward(parents, path[1..]))
  }

  ghost predicate Cycle<T>(parents: map<T, seq<T>>, path: seq<T>)
  {
    Upward(parents, path) && |path| > 1 && path[0] == path[|path| - 1]
  }

  ghost predicate HasCycle<T(!new)>(parents: map<T, seq<T>>)
  {
    exists path :: Cycle(parents, path)
  }

  lemma {:induction false} UpwardDrop<T>(parents: map<T, seq<T>>, path: seq<T>, i: nat)
    requires Upward(parents, path) && i < |path|
    ensures Upward(parents, path[i..])
  {
    if i > 0 {
      UpwardDrop(parents, path[1..], i - 1);
      assert path[1..][i - 1..] == path[i..];
    }
  }

  lemma {:induction false} UpwardTake<T>(parents: map<T, seq<T>>, path: seq<T>, n: nat)
    requires Upward(parents, path) && 0 < n <= |path|
    ensures Upward(parents, path[..n])
  {
    if n > 1 {
      UpwardTake(parents, path[1..], n - 1);
      assert path[..n][1..] == path[1..][..n - 1];
    }
  }

  // ----- levels

  ghost predicate ParentJustBelow<T>(parents: map<T, seq<T>>, level: map<T, nat>, n: T)
    requires n in parents && n in level
  {
    exists p :: p in parents[n] && p in level && level[p] + 1 == level[n]
  }

  ghost predicate Falling<T(!new)>(parents: map<T, seq<T>>, level: map<T, nat>)
    requires level.Keys <= parents.Keys
  {
    forall n, p | n in level && p in parents[n] :: p in level && level[p] < level[n]
  }

  ghost predicate Tight<T(!new)>(parents: map<T, seq<T>>, level: map<T, nat>)
    requires level.Keys <= parents.Keys
  {
    forall n {:trigger ParentJustBelow(parents, level, n)} | n in level && level[n] > 0 ::
        ParentJustBelow(parents, level, n)
  }

  /** Every parent of a levelled node is levelled lower and, above level 0, one just below. */
  ghost predicate Levelled<T(!new)>(parents: map<T, seq<T>>, level: map<T, nat>)
  {
    level.Keys <= parents.Keys && Falling(parents, level) && Tight(parents, level)
  }

  /** The batches list the nodes by level, each node once. */
  ghost predicate Listing<T>(level: map<T, nat>, batches: seq<seq<T>>)
  {
    && (forall n | n in level :: level[n] < |batches| && n in batches[level[n]])
    && (forall k, n | 0 <= k < |batches| && n in batches[k] :: n in level && level[n] == k)
    && (forall k | 0 <= k < |batches| :: Distinct(batches[k]))
  }

  /** Levels fall along a walk upwards, so the level of a node bounds every path to a root. */
  lemma {:induction false} LevelsFall<T(!new)>(parents: map<T, seq<T>>, level: map<T, nat>, path: seq<T>)
    requires Levelled(parents, level) && Upward(parents, path) && path[0] in level
    ensures path[|path| - 1] in level
    ensures level[path[|path| - 1]] + |path| - 1 <= level[path[0]]
  {
    if |path| > 1 {
      LevelsFall(parents, level, path[1..]);
    }
  }

  lemma AboveParent<T(!new)>(parents: map<T, seq<T>>, level: map<T, nat>, n: T, p: T)
    requires Levelled(parents, level) && n in level && p in parents[n]
    ensures level[n] > 0
  {
    var below: nat := level[p];
  }

  /** A path to a root as long as the level exists, so the level is the longest path. */
  lemma {:induction false} LevelReached<T(!new)>(parents: map<T, seq<T>>, level: map<T, nat>, n: T)
    returns (path: seq<T>)
    requires Levelled(parents, level) && n in level
    ensures Upward(parents, path) && path[0] == n && |path| - 1 == level[n]
    ensures path[|path| - 1] in parents && parents[path[|path| - 1]] == []
    decreases level[n]
  {
    if level[n] == 0 {
      path := [n];
      if |parents[n]| > 0 {
        AboveParent(parents, level, n, parents[n][0]);
      }
    } else {
      assert ParentJustBelow(parents, level, n);
      var p :| p in parents[n] && p in level && level[p] + 1 == level[n];
      var rest := LevelReached(parents, level, p);
      path := [n] + rest;
      assert path[1..] == rest && path[|path| - 1] == rest[|rest| - 1];
    }
  }

  lemma LevelledAcyclic<T(!new)>(parents: map<T, seq<T>>, level: map<T, nat>)
    requires Levelled(parents, level) && level.Keys == parents.Keys
    ensures !HasCycle(parents)
  {
    forall path | Upward(parents, path) ensures !Cycle(parents, path) {
      LevelsFall(parents, level, path);
    }
  }

  // ----- a stuck set holds a cycle

  ghost predicate ParentWithin<T>(parents: map<T, seq<T>>, s: set<T>, n: T)
    requires n in parents
  {
    exists p :: p in parents[n] && p in s
  }

  ghost predicate Stuck<T(!new)>(parents: map<T, seq<T>>, s: set<T>)
  {
    s <= parents.Keys && forall n {:trigger ParentWithin(parents, s, n)} | n in s :: ParentWithin(parents, s, n)
  }

  lemma {:induction false} ClimbWithin<T(!new)>(parents: map<T, seq<T>>, s: set<T>, n: T, length: nat)
    returns (path: seq<T>)
    requires Stuck(parents, s) && n in s
    ensures |path| == length + 1 && path[0] == n && Upward(parents, path) && Elements(path) <= s
  {
    path := [n];
    if length > 0 {
      assert ParentWithin(parents, s, n);
      var p :| p in parents[n] && p in s;
      var rest := ClimbWithin(parents, s, p, length - 1);
      path := [n] + rest;
      assert path[1..] == rest;
      assert Elements(path) == {n} + Elements(rest);
    }
  }

  lemma StuckHasCycle<T(!new)>(parents: map<T, seq<T>>, s: set<T>)
    requires Stuck(parents, s) && s != {}
    ensures HasCycle(parents)
  {
    var n :| n in s;
    var path := ClimbWithin(parents, s, n, |s|);
    if Distinct(path) {
      DistinctFits(path, s);
    }
    var i, j :| 0 <= i < j < |path| && path[i] == path[j];
    UpwardTake(parents, path, j + 1);
    UpwardDrop(parents, path[..j + 1], i);
    assert Cycle(parents, path[..j + 1][i..]);
  }

  // ----- counting parents

  /** How often x occurs in s. */
  ghost function Count<T>(s: seq<T>, x: T): nat
  {
    if s == [] then 0 else Count(s[..|s| - 1], x) + if s[|s| - 1] == x then 1 else 0
  }

  /** How many entries of s are not in done. */
  ghost function Remaining<T>(s: seq<T>, done: set<T>): nat
  {
    if s == [] then 0 else Remaining(s[..|s| - 1], done) + if s[|s| - 1] in done then 0 else 1
  }

  lemma {:induction false} CountPositive<T>(s: seq<T>, x: T)
    ensures Count(s, x) > 0 <==> x in s
  {
    if s != [] {
      CountPositive(s[..|s| - 1], x);
      assert s == s[..|s| - 1] + [s[|s| - 1]];
    }
  }

  lemma {:induction false} RemainingZero<T>(s: seq<T>, done: set<T>)
    ensures Remaining(s, done) == 0 <==> forall x | x in s :: x in done
  {
    if s != [] {
      RemainingZero(s[..|s| - 1], done);
      assert s == s[..|s| - 1] + [s[|s| - 1]];
    }
  }

  lemma {:induction false} RemainingDrop<T>(s: seq<T>, done: set<T>, x: T)
    requires x !in done
    ensures Remaining(s, done) == Remaining(s, done + {x}) + Count(s, x)
  {
    if s != [] {
      RemainingDrop(s[..|s| - 1], done, x);
    }
  }

  lemma CountStep<T>(s: seq<T>, j: nat, x: T)
    requires j < |s|
    ensures Count(s[..j + 1], x) == Count(s[..j], x) + if s[j] == x then 1 else 0
  {
    assert s[..j + 1][..j] == s[..j];
  }

  lemma {:induction false} CountPrefix<T>(s: seq<T>, j: nat, x: T)
    requires j <= |s|
    ensures Count(s[..j], x) <= Count(s, x)
    decreases |s| - j
  {
    if j < |s| {
      CountStep(s, j, x);
      CountPrefix(s, j + 1, x);
    } else {
      assert s[..j] == s;
    }
  }

  // ----- Kahn's algorithm, one layer at a time

  ghost predicate Enclosed<T(!new)>(nodes: set<T>, lists: map<T, seq<T>>)
  {
    lists.Keys == nodes && forall n | n in nodes :: Elements(lists[n]) <= nodes
  }

  ghost predicate SameEdges<T(!new)>(nodes: set<T>, parents: map<T, seq<T>>, children: map<T, seq<T>>)
    requires nodes <= parents.Keys && nodes <= children.Keys
  {
    forall p, c | p in nodes && c in nodes :: Count(children[p], c) == Count(parents[c], p)
  }

  /** Child lists and parent lists record the same edges, each as often. */
  ghost predicate Mirrored<T(!new)>(nodes: set<T>, parents: map<T, seq<T>>, children: map<T, seq<T>>)
  {
    Enclosed(nodes, parents) && Enclosed(nodes, children) && SameEdges(nodes, parents, children)
  }

  /** How many parent edges of each node come from nodes that are not done. */
  ghost predicate Pending<T>(parents: map<T, seq<T>>, done: set<T>, pending: map<T, nat>)
  {
    pending.Keys == parents.Keys && forall n | n in parents :: pending[n] == Remaining(parents[n], done)
  }

  ghost predicate Freed<T(!new)>(before: map<T, nat>, after: map<T, nat>, next: seq<T>)
    requires before.Keys == after.Keys
  {
    Distinct(next) && forall n :: n in next <==> n in before && before[n] > 0 && after[n] == 0
  }

  /** Takes the child edges of one node off the pending counts. */
  method Release<T(==, !new)>(list: seq<T>, pending: map<T, nat>, next: seq<T>, ghost start: map<T, nat>)
    returns (pending': map<T, nat>, next': seq<T>)
    requires forall c | c in list :: c in pending && Count(list, c) <= pending[c]
    requires start.Keys == pending.Keys && (forall c | c in start :: pending[c] <= start[c]) &&
             Freed(start, pending, next)
    ensures pending'.Keys == pending.Keys && forall c | c in pending :: pending'[c] + Count(list, c) == pending[c]
    ensures Freed(start, pending', next')
  {
    pending', next' := pending, next;
    var j := 0;
    while j < |list|
      invariant j <= |list| && pending'.Keys == pending.Keys
      invariant forall c | c in pending :: pending'[c] + Count(list[..j], c) == pending[c]
      invariant Freed(start, pending', next')
    {
      var child := list[j];
      assert child in list;
      forall c ensures Count(list[..j + 1], c) == Count(list[..j], c) + if child == c then 1 else 0 {
        CountStep(list, j, c);
      }
      CountPrefix(list, j + 1, child);
      assert child !in next';
      pending' := pending'[child := pending'[child] - 1];
      if pending'[child] == 0 {
        next' := next' + [child];
      }
      j := j + 1;
    }
    assert list[..j] == list;
    forall c | c in pending ensures pending'[c] + Count(list, c) == pending[c] {
    }
  }

  method ReleaseAll<T(==, !new)>(ready: seq<T>, children: map<T, seq<T>>, pending: map<T, nat>,
                                 ghost parents: map<T, seq<T>>, ghost done: set<T>)
    returns (pending': map<T, nat>, next: seq<T>)
    requires Mirrored(parents.Keys, parents, children) && Pending(parents, done, pending)
    requires Distinct(ready) && Elements(ready) <= parents.Keys && Elements(ready) !! done
    ensures Pending(parents, done + Elements(ready), pending') && Freed(pending, pending', next)
  {
    hide Remaining, Freed, Mirrored;
    pending', next := pending, [];
    FreedNone(pending);
    var i := 0;
    ghost var now := done;
    while i < |ready|
      invariant i <= |ready| && now == done + Elements(ready[..i])
      invariant Pending(parents, now, pending') && Freed(pending, pending', next)
      invariant forall c | c in pending :: pending'[c] <= pending[c]
    {
      var m := ready[i];
      assert m in Elements(ready);
      assert m !in ready[..i];
      ReleaseStep(parents, children, now, pending', m);
      pending', next := Release(children[m], pending', next, pending);
      assert ready[..i + 1] == ready[..i] + [m];
      now := now + {m};
      i := i + 1;
    }
    assert ready[..i] == ready;
  }

  lemma FreedNone<T(!new)>(pending: map<T, nat>)
    ensures Freed(pending, pending, [])
  {
  }

  lemma ReleaseStep<T(!new)>(parents: map<T, seq<T>>, children: map<T, seq<T>>, done: set<T>, pending: map<T, nat>,
                      m: T)
    requires Mirrored(parents.Keys, parents, children) && Pending(parents, done, pending)
    requires m in parents && m !in done
    ensures m in children
    ensures forall c | c in children[m] :: c in pending
    ensures forall c | c in pending ::
              pending[c] == Remaining(parents[c], done + {m}) + Count(children[m], c)
  {
    forall c | c in pending ensures pending[c] == Remaining(parents[c], done + {m}) + Count(children[m], c) {
      RemainingDrop(parents[c], done, m);
    }
    forall c | c in children[m] ensures c in pending {
      assert c in Elements(children[m]);
    }
  }

  /** The layers found so far, and the nodes ready for the next one. */
  ghost predicate Sorting<T(!new)>(parents: map<T, seq<T>>, level: map<T, nat>, batches: seq<seq<T>>, ready: seq<T>)
  {
    && Levelled(parents, level) && Listing(level, batches)
    && Distinct(ready)
    && (forall n :: n in ready <==> n in parents && n !in level && Remaining(parents[n], level.Keys) == 0)
    && (|batches| > 0 ==> forall n {:trigger HasParentAt(parents, level, n, |batches|)} | n in ready ::
          HasParentAt(parents, level, n, |batches|))
    && (forall n | n in level :: Remaining(parents[n], level.Keys) == 0)
  }

  ghost predicate HasParentAt<T>(parents: map<T, seq<T>>, level: map<T, nat>, n: T, k: nat)
    requires n in parents
  {
    exists p :: p in parents[n] && p in level && level[p] + 1 == k
  }

  ghost function Raise<T(!new)>(level: map<T, nat>, ready: seq<T>, k: nat): map<T, nat>
  {
    map n | n in level.Keys + Elements(ready) :: if n in ready then k else level[n]
  }

  /** Everything whose parents are all done is in a layer or ready. */
  lemma ReadyParents<T(!new)>(parents: map<T, seq<T>>, level: map<T, nat>, batches: seq<seq<T>>, ready: seq<T>, n: T)
    requires Sorting(parents, level, batches, ready) && n in parents
    ensures n in level || n in ready <==> forall p | p in parents[n] :: p in level
    ensures Remaining(parents[n], level.Keys) == 0 <==> forall p | p in parents[n] :: p in level
  {
    RemainingZero(parents[n], level.Keys);
  }

  lemma RaiseFalling<T(!new)>(parents: map<T, seq<T>>, level: map<T, nat>, ready: seq<T>, k: nat)
    requires level.Keys + Elements(ready) <= parents.Keys && Falling(parents, level) && Elements(ready) !! level.Keys
    requires forall n, p | n in ready && p in parents[n] :: p in level
    requires forall n | n in level :: level[n] < k
    ensures Raise(level, ready, k).Keys <= parents.Keys && Falling(parents, Raise(level, ready, k))
  {
    var level' := Raise(level, ready, k);
    forall n, p | n in level' && p in parents[n] ensures p in level' && level'[p] < level'[n] {
      assert p in level && p !in Elements(ready);
    }
  }

  lemma RaiseTight<T(!new)>(parents: map<T, seq<T>>, level: map<T, nat>, ready: seq<T>, k: nat)
    requires level.Keys + Elements(ready) <= parents.Keys && Tight(parents, level) && Elements(ready) !! level.Keys
    requires k > 0 ==> forall n {:trigger HasParentAt(parents, level, n, k)} | n in ready ::
                         HasParentAt(parents, level, n, k)
    ensures Raise(level, ready, k).Keys <= parents.Keys && Tight(parents, Raise(level, ready, k))
  {
    var level' := Raise(level, ready, k);
    forall n | n in level' && level'[n] > 0 ensures ParentJustBelow(parents, level', n) {
      if n in ready {
        assert HasParentAt(parents, level, n, k);
        var p :| p in parents[n] && p in level && level[p] + 1 == k;
        assert p !in Elements(ready) && level'[p] + 1 == level'[n];
      } else {
        assert ParentJustBelow(parents, level, n);
        var p :| p in parents[n] && p in level && level[p] + 1 == level[n];
        assert p !in Elements(ready) && level'[p] + 1 == level'[n];
      }
    }
  }

  lemma ReadyLevelled<T(!new)>(parents: map<T, seq<T>>, level: map<T, nat>, batches: seq<seq<T>>, ready: seq<T>)
    requires Sorting(parents, level, batches, ready)
    ensures Levelled(parents, Raise(level, ready, |batches|))
  {
    forall n, p | n in ready && p in parents[n] ensures p in level {
      RemainingZero(parents[n], level.Keys);
    }
    hide Falling, Tight, Remaining, Raise;
    RaiseFalling(parents, level, ready, |batches|);
    RaiseTight(parents, level, ready, |batches|);
  }

  lemma RaiseListing<T(!new)>(parents: map<T, seq<T>>, level: map<T, nat>, batches: seq<seq<T>>, ready: seq<T>)
    requires Sorting(parents, level, batches, ready)
    ensures Listing(Raise(level, ready, |batches|), batches + [ready])
  {
    hide Remaining, Levelled;
  }

  lemma SortStep<T(!new)>(parents: map<T, seq<T>>, level: map<T, nat>, batches: seq<seq<T>>, ready: seq<T>,
                          pending: map<T, nat>, pending': map<T, nat>, next: seq<T>)
    requires Sorting(parents, level, batches, ready)
    requires Pending(parents, level.Keys, pending) && Pending(parents, level.Keys + Elements(ready), pending')
    requires Freed(pending, pending', next)
    ensures Sorting(parents, Raise(level, ready, |batches|), batches + [ready], next)
  {
    ReadyLevelled(parents, level, batches, ready);
    RaiseListing(parents, level, batches, ready);
    NextReady(parents, level, batches, ready, pending, pending', next);
    hide Levelled, Listing, Remaining, HasParentAt, Raise, Sorting, Pending;
    assert Distinct(next);
    Assemble(parents, Raise(level, ready, |batches|), batches + [ready], next);
  }

  lemma Assemble<T(!new)>(parents: map<T, seq<T>>, level: map<T, nat>, batches: seq<seq<T>>, ready: seq<T>)
    requires Levelled(parents, level) && Listing(level, batches) && Distinct(ready)
    requires forall n :: n in ready <==> n in parents && n !in level && Remaining(parents[n], level.Keys) == 0
    requires forall n | n in level :: n in parents && Remaining(parents[n], level.Keys) == 0
    requires forall n {:trigger HasParentAt(parents, level, n, |batches|)} | n in ready ::
               n in parents && HasParentAt(parents, level, n, |batches|)
    ensures Sorting(parents, level, batches, ready)
  {
    hide Listing, Remaining, HasParentAt, Falling, Tight;
  }

  lemma NextReady<T(!new)>(parents: map<T, seq<T>>, level: map<T, nat>, batches: seq<seq<T>>, ready: seq<T>,
                           pending: map<T, nat>, pending': map<T, nat>, next: seq<T>)
    requires Sorting(parents, level, batches, ready)
    requires Pending(parents, level.Keys, pending) && Pending(parents, level.Keys + Elements(ready), pending')
    requires Freed(pending, pending', next)
    ensures var level' := Raise(level, ready, |batches|);
            && (forall n :: n in next <==> n in parents && n !in level' && Remaining(parents[n], level'.Keys) == 0)
            && (forall n | n in level' :: n in parents && Remaining(parents[n], level'.Keys) == 0)
            && (forall n {:trigger HasParentAt(parents, level', n, |batches| + 1)} | n in next ::
                  n in parents && HasParentAt(parents, level', n, |batches| + 1))
  {
    var level' := Raise(level, ready, |batches|);
    assert level'.Keys == level.Keys + Elements(ready);
    forall n | n in parents
      ensures n in next <==> n !in level' && Remaining(parents[n], level'.Keys) == 0
      ensures n in level' ==> Remaining(parents[n], level'.Keys) == 0
      ensures n in next ==> HasParentAt(parents, level', n, |batches| + 1)
    {
      ReadyParents(parents, level, batches, ready, n);
      RemainingZero(parents[n], level'.Keys);
      hide Levelled, Listing, Remaining;
      if n in next {
        var p :| p in parents[n] && p !in level;
        assert p in level' && level'[p] == |batches|;
      }
    }
    hide Listing, Remaining, HasParentAt, Raise;
  }

  /** Sorts the nodes into layers; fails exactly when the graph has a cycle. */
  method Layers<T(==, !new)>(nodes: seq<T>, parents: map<T, seq<T>>, children: map<T, seq<T>>)
    returns (ok: bool, batches: seq<seq<T>>, ghost level: map<T, nat>)
    requires Distinct(nodes) && Mirrored(Elements(nodes), parents, children)
    ensures ok <==> !HasCycle(parents)
    ensures ok ==> level.Keys == Elements(nodes) && Levelled(parents, level) && Listing(level, batches)
  {
    hide Remaining, Levelled, Listing, Mirrored, Enclosed, Freed, Sorting, Pending, Raise, HasCycle;
    batches, level := [], map[];
    MirroredKeys(nodes, parents, children);
    var pending, ready := CountParents(nodes, parents);
    SortStart(parents, pending, ready);
    var visited := 0;
    while |ready| > 0
      invariant level.Keys <= parents.Keys && visited == |level.Keys|
      invariant Sorting(parents, level, batches, ready) && Pending(parents, level.Keys, pending)
      decreases parents.Keys - level.Keys
    {
      ghost var before, level' := pending, Raise(level, ready, |batches|);
      ReadyFacts(parents, level, batches, ready);
      assert ready[0] in Elements(ready);
      var next;
      pending, next := ReleaseAll(ready, children, pending, parents, level.Keys);
      SortStep(parents, level, batches, ready, before, pending, next);
      visited := visited + |ready|;
      level := level';
      batches := batches + [ready];
      ready := next;
    }
    DistinctSize(nodes);
    assert ready == [];
    if visited != |nodes| {
      Leftover(parents, level, batches);
      return false, [], map[];
    }
    SameSize(level.Keys, parents.Keys);
    SortedFacts(parents, level, batches, ready);
    LevelledAcyclic(parents, level);
    ok := true;
  }

  lemma SameSize<T>(s: set<T>, t: set<T>)
    requires s <= t && |s| == |t|
    ensures s == t
  {
    assert t == s + (t - s);
    assert |t - s| == 0;
  }

  method CountParents<T(==, !new)>(nodes: seq<T>, parents: map<T, seq<T>>) returns (pending: map<T, nat>, ready: seq<T>)
    requires Distinct(nodes) && Elements(nodes) == parents.Keys
    ensures Pending(parents, {}, pending)
    ensures Distinct(ready) && forall n :: n in ready <==> n in parents && Remaining(parents[n], {}) == 0
  {
    pending, ready := map[], [];
    var i := 0;
    while i < |nodes|
      invariant i <= |nodes| && pending.Keys == Elements(nodes[..i])
      invariant forall n | n in pending :: pending[n] == Remaining(parents[n], {})
      invariant Distinct(ready) && forall n :: n in ready <==> n in pending && pending[n] == 0
    {
      var m := nodes[i];
      assert m in Elements(nodes);
      assert nodes[..i + 1] == nodes[..i] + [m];
      RemainingAll(parents[m]);
      pending := pending[m := |parents[m]|];
      if pending[m] == 0 {
        ready := ready + [m];
      }
      i := i + 1;
    }
    assert nodes[..i] == nodes;
  }

  lemma {:induction false} RemainingAll<T(!new)>(s: seq<T>)
    ensures Remaining(s, {}) == |s|
  {
    if s != [] {
      RemainingAll(s[..|s| - 1]);
    }
  }

  lemma MirroredKeys<T(!new)>(nodes: seq<T>, parents: map<T, seq<T>>, children: map<T, seq<T>>)
    requires Mirrored(Elements(nodes), parents, children)
    ensures parents.Keys == Elements(nodes) && Mirrored(parents.Keys, parents, children) &&
            Enclosed(parents.Keys, parents)
  {
  }

  lemma SortStart<T(!new)>(parents: map<T, seq<T>>, pending: map<T, nat>, ready: seq<T>)
    requires Distinct(ready) && forall n :: n in ready <==> n in parents && Remaining(parents[n], {}) == 0
    requires Pending(parents, {}, pending)
    ensures var none: map<T, nat> := map[];
            Sorting(parents, none, [], ready) && Pending(parents, none.Keys, pending)
  {
    var none: map<T, nat> := map[];
    assert none.Keys == {};
  }

  lemma ReadyFacts<T(!new)>(parents: map<T, seq<T>>, level: map<T, nat>, batches: seq<seq<T>>, ready: seq<T>)
    requires Sorting(parents, level, batches, ready)
    ensures Distinct(ready) && Elements(ready) <= parents.Keys && Elements(ready) !! level.Keys
    ensures var level' := Raise(level, ready, |batches|);
            level'.Keys == level.Keys + Elements(ready) && |level'.Keys| == |level.Keys| + |ready|
  {
    var level' := Raise(level, ready, |batches|);
    DistinctSize(ready);
    assert level'.Keys == level.Keys + Elements(ready);
  }

  lemma SortedFacts<T(!new)>(parents: map<T, seq<T>>, level: map<T, nat>, batches: seq<seq<T>>, ready: seq<T>)
    requires Sorting(parents, level, batches, ready)
    ensures Levelled(parents, level) && Listing(level, batches)
  {
  }

  lemma LeftoverStuck<T(!new)>(parents: map<T, seq<T>>, done: set<T>)
    requires forall n | n in parents :: Elements(parents[n]) <= parents.Keys
    requires forall n | n in parents && n !in done :: Remaining(parents[n], done) != 0
    ensures Stuck(parents, parents.Keys - done)
  {
    forall n | n in parents && n !in done ensures ParentWithin(parents, parents.Keys - done, n) {
      RemainingZero(parents[n], done);
      var p :| p in parents[n] && p !in done;
      assert p in Elements(parents[n]);
    }
  }

  /** What is left when nothing is ready feeds a cycle. */
  lemma Leftover<T(!new)>(parents: map<T, seq<T>>, level: map<T, nat>, batches: seq<seq<T>>)
    requires Enclosed(parents.Keys, parents) && Sorting(parents, level, batches, [])
    requires level.Keys <= parents.Keys && |level.Keys| != |parents.Keys|
    ensures HasCycle(parents)
  {
    hide Levelled, Listing, Remaining;
    assert forall n | n in parents && n !in level :: n !in [];
    LeftoverStuck(parents, level.Keys);
    assert parents.Keys == level.Keys + (parents.Keys - level.Keys);
    StuckHasCycle(parents, parents.Keys - level.Keys);
  }
}
