/** Least sets closed under a finite edge relation. */
module Closures {

  ghost predicate Closed<T>(edges: map<T, set<T>>, s: set<T>)
  {
    forall x | x in s && x in edges :: edges[x] <= s
  }

  /** s contains the seeds and is closed: it bounds the least such set from above. */
  ghost predicate Bounds<T>(edges: map<T, set<T>>, seeds: set<T>, s: set<T>)
  {
    seeds <= s && Closed(edges, s)
  }

  ghost function Targets<T(!new)>(edges: map<T, set<T>>): set<T>
  {
    set x, y | x in edges && y in edges[x] :: y
  }

  /** The intersection of all closed sets containing the seeds. */
  ghost function Reach<T(!new)>(edges: map<T, set<T>>, seeds: set<T>): set<T>
  {
    set x | x in seeds + Targets(edges) && forall s | Bounds(edges, seeds, s) :: x in s
  }

  /** Reach is the least closed set containing the seeds. */
  lemma ReachLeast<T(!new)>(edges: map<T, set<T>>, seeds: set<T>)
    ensures Bounds(edges, seeds, Reach(edges, seeds))
    ensures forall s | Bounds(edges, seeds, s) :: Reach(edges, seeds) <= s
  {
    var r := Reach(edges, seeds);
    forall x, y | x in r && x in edges && y in edges[x]
      ensures y in r
    {
      assert y in Targets(edges);
      forall s | Bounds(edges, seeds, s)
        ensures y in s
      {
        assert x in s;
      }
    }
  }

  lemma ReachUnique<T(!new)>(edges: map<T, set<T>>, seeds: set<T>, s: set<T>)
    requires Bounds(edges, seeds, s) && s <= Reach(edges, seeds)
    ensures s == Reach(edges, seeds)
  {
    ReachLeast(edges, seeds);
  }

  lemma ReachMonotone<T(!new)>(edges: map<T, set<T>>, seeds: set<T>, more: set<T>)
    requires seeds <= Reach(edges, more)
    ensures Reach(edges, seeds) <= Reach(edges, more)
  {
    ReachLeast(edges, more);
    ReachLeast(edges, seeds);
    assert Bounds(edges, seeds, Reach(edges, more));
  }

  /** More edges reach more. */
  lemma ReachMoreEdges<T(!new)>(fewer: map<T, set<T>>, edges: map<T, set<T>>, seeds: set<T>)
    requires forall x | x in fewer :: x in edges && fewer[x] <= edges[x]
    ensures Reach(fewer, seeds) <= Reach(edges, seeds)
  {
    ReachLeast(edges, seeds);
    ReachLeast(fewer, seeds);
    var r := Reach(edges, seeds);
    forall x | x in r && x in fewer
      ensures fewer[x] <= r
    {
      assert edges[x] <= r;
    }
    assert Bounds(fewer, seeds, r);
  }

  lemma ReachWithin<T(!new)>(edges: map<T, set<T>>, seeds: set<T>, universe: set<T>)
    requires seeds <= universe && forall x | x in edges :: edges[x] <= universe
    ensures Reach(edges, seeds) <= universe
  {
    ReachLeast(edges, seeds);
    assert Bounds(edges, seeds, universe);
  }

  lemma ReachMoreSeeds<T(!new)>(edges: map<T, set<T>>, seeds: set<T>, more: set<T>)
    requires seeds <= more
    ensures Reach(edges, seeds) <= Reach(edges, more)
  {
    ReachLeast(edges, more);
    ReachMonotone(edges, seeds, more);
  }

  lemma ReachAgain<T(!new)>(edges: map<T, set<T>>, seeds: set<T>, d: T)
    requires d in Reach(edges, seeds)
    ensures Reach(edges, seeds + {d}) == Reach(edges, seeds)
  {
    ReachLeast(edges, seeds);
    ReachAbsorb(edges, seeds, seeds + {d});
  }

  lemma ReachNothing<T(!new)>(edges: map<T, set<T>>)
    ensures Reach(edges, {}) == {}
  {
    ReachLeast(edges, {});
    assert Bounds(edges, {}, {});
  }

  lemma ReachStep<T(!new)>(edges: map<T, set<T>>, seeds: set<T>, d: T)
    ensures Reach(edges, Reach(edges, seeds) + {d}) == Reach(edges, seeds + {d})
  {
    ReachLeast(edges, Reach(edges, seeds) + {d});
    ReachAfter(edges, seeds, Reach(edges, seeds) + {d}, d);
  }

  /** Seeds already reached add nothing. */
  lemma ReachAbsorb<T(!new)>(edges: map<T, set<T>>, seeds: set<T>, more: set<T>)
    requires seeds <= more <= Reach(edges, seeds)
    ensures Reach(edges, more) == Reach(edges, seeds)
  {
    ReachMonotone(edges, more, seeds);
    ReachLeast(edges, more);
    ReachMonotone(edges, seeds, more);
  }

  /** Reaching in two steps: first along fewer edges or from fewer seeds. */
  lemma ReachAfter<T(!new)>(edges: map<T, set<T>>, seeds: set<T>, between: set<T>, d: T)
    requires Reach(edges, seeds) + {d} <= between <= Reach(edges, Reach(edges, seeds) + {d})
    ensures Reach(edges, between) == Reach(edges, seeds + {d})
  {
    ReachLeast(edges, seeds);
    ReachLeast(edges, seeds + {d});
    ReachMonotone(edges, seeds, seeds + {d});
    ReachMonotone(edges, Reach(edges, seeds) + {d}, seeds + {d});
    ReachAbsorb(edges, seeds + {d}, between);
  }
}
