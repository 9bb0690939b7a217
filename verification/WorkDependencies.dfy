/** The technological order of works: a dependency is accepted only when it closes no cycle. */
module WorkDependencies {
  type Work = nat
  type Edge = (Work, Work)

  // ---------------------------------------------------------------- paths

  predicate IsPath(edges: set<Edge>, path: seq<Work>) { |path| >= 2 && forall i :: 0 <= i < |path| - 1 ==> (path[i], path[i + 1]) in edges }

  predicate Joins(edges: set<Edge>, path: seq<Work>, a: Work, b: Work) { IsPath(edges, path) && path[0] == a && path[|path| - 1] == b }

  /** `b` comes after `a` through at least one dependency. */
  ghost predicate Reaches(edges: set<Edge>, a: Work, b: Work) { exists path :: Joins(edges, path, a, b) }

  ghost predicate Acyclic(edges: set<Edge>) { forall a :: !Reaches(edges, a, a) }

  lemma EdgeReaches(edges: set<Edge>, a: Work, b: Work)
    requires (a, b) in edges
    ensures Reaches(edges, a, b)
  {
    assert Joins(edges, [a, b], a, b);
  }

  lemma StepReaches(edges: set<Edge>, a: Work, b: Work, c: Work)
    requires Reaches(edges, a, b) && (b, c) in edges
    ensures Reaches(edges, a, c)
  {
    var path :| Joins(edges, path, a, b);
    assert Joins(edges, path + [c], a, c);
  }

  ghost predicate ClosedUnder(edges: set<Edge>, inside: set<Work>) { forall a, b :: a in inside && (a, b) in edges ==> b in inside }

  lemma {:induction false} PathStaysInside(edges: set<Edge>, path: seq<Work>, inside: set<Work>, k: nat)
    requires IsPath(edges, path) && ClosedUnder(edges, inside) && path[0] in inside && k < |path|
    ensures path[k] in inside
    decreases k
  {
    if k > 0 {
      PathStaysInside(edges, path, inside, k - 1);
      assert (path[k - 1], path[k]) in edges;
    }
  }

  // ---------------------------------------------------------------- the recursive query

  function Successors(edges: set<Edge>, from: set<Work>): set<Work> { set e | e in edges && e.0 in from :: e.1 }

  /** Everything after a work, level by level, until a level brings nothing new. */
  method ChainFrom(edges: set<Edge>, start: Work) returns (chain: set<Work>)
    ensures forall w :: w in chain <==> Reaches(edges, start, w)
  {
    var all := set e | e in edges :: e.1;
    chain := Successors(edges, {start});
    var frontier := chain;
    forall w | w in chain ensures Reaches(edges, start, w) { EdgeReaches(edges, start, w); }
    while frontier != {}
      invariant frontier <= chain <= all
      invariant forall w :: w in chain ==> Reaches(edges, start, w)
      invariant forall a, b :: (a == start || a in chain - frontier) && (a, b) in edges ==> b in chain
      decreases all - chain, frontier != {}
    {
      var found := Successors(edges, frontier) - chain;
      forall w | w in found ensures Reaches(edges, start, w) {
        var e :| e in edges && e.0 in frontier && e.1 == w;
        StepReaches(edges, start, e.0, w);
      }
      forall a, b | (a == start || a in chain) && (a, b) in edges ensures b in chain + found { }
      chain, frontier := chain + found, found;
    }
    forall w | Reaches(edges, start, w) ensures w in chain { ChainHoldsAll(edges, start, chain, w); }
  }

  lemma ChainHoldsAll(edges: set<Edge>, start: Work, chain: set<Work>, w: Work)
    requires Reaches(edges, start, w)
    requires forall a, b :: (a == start || a in chain) && (a, b) in edges ==> b in chain
    ensures w in chain
  {
    var path :| Joins(edges, path, start, w);
    assert (path[0], path[1]) in edges;
    if |path| > 2 {
      var rest := path[1..];
      forall i | 0 <= i < |rest| - 1 ensures (rest[i], rest[i + 1]) in edges { assert (path[i + 1], path[i + 2]) in edges; }
      PathStaysInside(edges, rest, chain, |rest| - 1);
    }
  }

  // ---------------------------------------------------------------- when an edge may be added

  lemma AddedPath(edges: set<Edge>, p: Work, s: Work, path: seq<Work>)
    requires IsPath(edges + {(p, s)}, path)
    ensures IsPath(edges, path) || exists i :: 0 <= i < |path| - 1 && path[i] == p && path[i + 1] == s
  {
    if forall i :: 0 <= i < |path| - 1 ==> !(path[i] == p && path[i + 1] == s) {
      forall i | 0 <= i < |path| - 1 ensures (path[i], path[i + 1]) in edges { assert (path[i], path[i + 1]) in edges + {(p, s)}; }
    }
  }

  lemma PathPart(edges: set<Edge>, path: seq<Work>, lo: nat, hi: nat)
    requires IsPath(edges, path) && lo + 2 <= hi <= |path|
    ensures IsPath(edges, path[lo..hi])
  {
    forall i | 0 <= i < hi - lo - 1 ensures (path[lo..hi][i], path[lo..hi][i + 1]) in edges {
      assert (path[lo + i], path[lo + i + 1]) in edges;
    }
  }

  /** A cycle through the new edge runs from `s` round to its start and from there to `p`, always inside what `s` reaches. */
  lemma NewEdgeOffCycles(edges: set<Edge>, p: Work, s: Work, inside: set<Work>, cycle: seq<Work>, i: nat)
    requires s in inside && p !in inside && ClosedUnder(edges, inside)
    requires IsPath(edges + {(p, s)}, cycle) && cycle[0] == cycle[|cycle| - 1]
    requires i < |cycle| - 1
    ensures !(cycle[i] == p && cycle[i + 1] == s)
  {
    var more := edges + {(p, s)};
    assert ClosedUnder(more, inside);
    if cycle[i + 1] == s {
      if i + 2 < |cycle| {
        PathPart(more, cycle, i + 1, |cycle|);
        PathStaysInside(more, cycle[i + 1..|cycle|], inside, |cycle| - i - 2);
      }
      PathStaysInside(more, cycle, inside, i);
    }
  }

  lemma CycleIsOld(edges: set<Edge>, p: Work, s: Work, inside: set<Work>, cycle: seq<Work>, a: Work)
    requires s in inside && p !in inside && ClosedUnder(edges, inside)
    ensures Joins(edges + {(p, s)}, cycle, a, a) ==> Reaches(edges, a, a)
  {
    if Joins(edges + {(p, s)}, cycle, a, a) {
      AddedPath(edges, p, s, cycle);
      forall i | 0 <= i < |cycle| - 1 ensures !(cycle[i] == p && cycle[i + 1] == s) { NewEdgeOffCycles(edges, p, s, inside, cycle, i); }
      assert Joins(edges, cycle, a, a);
    }
  }

  lemma NewEdgeClosesNothing(edges: set<Edge>, p: Work, s: Work, chain: set<Work>)
    requires Acyclic(edges) && p != s && !Reaches(edges, s, p)
    requires forall w :: w in chain <==> Reaches(edges, s, w)
    ensures Acyclic(edges + {(p, s)})
  {
    var inside := chain + {s};
    forall a, b | a in inside && (a, b) in edges ensures b in inside {
      if a == s {
        EdgeReaches(edges, s, b);
      } else {
        StepReaches(edges, s, a, b);
      }
    }
    forall a, cycle ensures !Joins(edges + {(p, s)}, cycle, a, a) { CycleIsOld(edges, p, s, inside, cycle, a); }
  }

  lemma MoreEdgesReachMore(edges: set<Edge>, more: set<Edge>, a: Work, b: Work)
    requires edges <= more && Reaches(edges, a, b)
    ensures Reaches(more, a, b)
  {
    var path :| Joins(edges, path, a, b);
    assert Joins(more, path, a, b);
  }

  /** The check is exact: on an acyclic graph it refuses an edge exactly when the edge would close a cycle. */
  lemma CycleCheckExact(edges: set<Edge>, p: Work, s: Work, chain: set<Work>)
    requires Acyclic(edges)
    requires forall w :: w in chain <==> Reaches(edges, s, w)
    ensures p !in chain && p != s <==> Acyclic(edges + {(p, s)})
  {
    var more := edges + {(p, s)};
    if p !in chain && p != s {
      NewEdgeClosesNothing(edges, p, s, chain);
    } else if p == s {
      EdgeReaches(more, p, s);
    } else {
      MoreEdgesReachMore(edges, more, s, p);
      StepReaches(more, s, p, s);
    }
  }

  // ---------------------------------------------------------------- the operation over any run

  datatype Error = UnknownWork | DifferentObjects | Started | WouldCycle | Repeated
  datatype Answer = Accepted | Refused(error: Error)

  /** `objects` gives each work its object; `mayAdd` is the verdict on whether the successor has started. */
  datatype Request = Request(predecessor: Work, successor: Work, mayAdd: bool)

  /** The table holds an edge at most once. */
  ghost function Verdict(objects: map<Work, nat>, edges: set<Edge>, r: Request): Answer {
    if r.predecessor !in objects || r.successor !in objects then Refused(UnknownWork)
    else if objects[r.predecessor] != objects[r.successor] then Refused(DifferentObjects)
    else if !r.mayAdd then Refused(Started)
    else if Reaches(edges, r.successor, r.predecessor) || r.predecessor == r.successor then Refused(WouldCycle)
    else if (r.predecessor, r.successor) in edges then Refused(Repeated)
    else Accepted
  }

  ghost function After(objects: map<Work, nat>, edges: set<Edge>, r: Request): set<Edge> {
    if Verdict(objects, edges, r).Accepted? then edges + {(r.predecessor, r.successor)} else edges
  }

  ghost function AfterAll(objects: map<Work, nat>, rs: seq<Request>): set<Edge> {
    if rs == [] then {} else After(objects, AfterAll(objects, rs[..|rs| - 1]), rs[|rs| - 1])
  }

  class DependencyStore {
    var edges: set<Edge>

    constructor ()
      ensures edges == {}
    {
      edges := {};
    }

    method Dependency(objects: map<Work, nat>, r: Request) returns (answer: Answer)
      modifies this
      ensures answer == Verdict(objects, old(edges), r)
      ensures edges == After(objects, old(edges), r)
    {
      if r.predecessor !in objects || r.successor !in objects {
        return Refused(UnknownWork);
      }
      if objects[r.predecessor] != objects[r.successor] {
        return Refused(DifferentObjects);
      }
      if !r.mayAdd {
        return Refused(Started);
      }
      var chain := ChainFrom(edges, r.successor);
      if r.predecessor in chain || r.predecessor == r.successor {
        return Refused(WouldCycle);
      }
      if (r.predecessor, r.successor) in edges {
        return Refused(Repeated);
      }
      edges := edges + {(r.predecessor, r.successor)};
      return Accepted;
    }
  }

  ghost function ChainSet(edges: set<Edge>, s: Work): set<Work> { set e | e in edges && Reaches(edges, s, e.1) :: e.1 }

  lemma ChainSetExact(edges: set<Edge>, s: Work, w: Work)
    ensures w in ChainSet(edges, s) <==> Reaches(edges, s, w)
  {
    if Reaches(edges, s, w) {
      var path :| Joins(edges, path, s, w);
      assert (path[|path| - 2], path[|path| - 1]) in edges;
    }
  }

  lemma NoEdgesNoPath(path: seq<Work>)
    ensures !IsPath({}, path)
  {
    var none: set<Edge> := {};
    assert |path| >= 2 ==> (path[0], path[0 + 1]) !in none;
  }

  /** In every reachable state the graph is acyclic and never crosses objects. */
  lemma {:induction false} ReachableGraphsAreAcyclic(objects: map<Work, nat>, rs: seq<Request>)
    ensures Acyclic(AfterAll(objects, rs))
    ensures forall e :: e in AfterAll(objects, rs) ==> e.0 in objects && e.1 in objects && objects[e.0] == objects[e.1]
  {
    if rs == [] {
      forall a, path ensures !Joins({}, path, a, a) { NoEdgesNoPath(path); }
    } else {
      var edges, r := AfterAll(objects, rs[..|rs| - 1]), rs[|rs| - 1];
      ReachableGraphsAreAcyclic(objects, rs[..|rs| - 1]);
      forall w ensures w in ChainSet(edges, r.successor) <==> Reaches(edges, r.successor, w) { ChainSetExact(edges, r.successor, w); }
      CycleCheckExact(edges, r.predecessor, r.successor, ChainSet(edges, r.successor));
    }
  }

  /** After any requests a dependency is taken exactly when both works are of one object, the successor has not started, and the edge is new and closes no cycle. */
  lemma TakenExactly(objects: map<Work, nat>, rs: seq<Request>, r: Request)
    ensures Verdict(objects, AfterAll(objects, rs), r).Accepted? <==>
            && r.predecessor in objects && r.successor in objects && objects[r.predecessor] == objects[r.successor] && r.mayAdd
            && (r.predecessor, r.successor) !in AfterAll(objects, rs)
            && Acyclic(AfterAll(objects, rs) + {(r.predecessor, r.successor)})
  {
    var edges := AfterAll(objects, rs);
    ReachableGraphsAreAcyclic(objects, rs);
    forall w ensures w in ChainSet(edges, r.successor) <==> Reaches(edges, r.successor, w) { ChainSetExact(edges, r.successor, w); }
    CycleCheckExact(edges, r.predecessor, r.successor, ChainSet(edges, r.successor));
  }

  /** A request adds its own edge when it is taken and nothing otherwise; the refusal says the first thing that stands against it. */
  lemma RequestAddsItsEdge(objects: map<Work, nat>, rs: seq<Request>, r: Request)
    ensures var edges, more, answer := AfterAll(objects, rs), AfterAll(objects, rs + [r]), Verdict(objects, AfterAll(objects, rs), r);
            var known := r.predecessor in objects && r.successor in objects;
            && (answer == Accepted ==> more == edges + {(r.predecessor, r.successor)} && more != edges) && (answer != Accepted ==> more == edges)
            && (answer == Refused(UnknownWork) <==> !known)
            && (answer == Refused(DifferentObjects) <==> known && objects[r.predecessor] != objects[r.successor])
            && (answer == Refused(Started) <==> known && objects[r.predecessor] == objects[r.successor] && !r.mayAdd)
            && (answer == Refused(WouldCycle) <==>
                  known && objects[r.predecessor] == objects[r.successor] && r.mayAdd && !Acyclic(edges + {(r.predecessor, r.successor)}))
            && (answer == Refused(Repeated) <==>
                  known && objects[r.predecessor] == objects[r.successor] && r.mayAdd && (r.predecessor, r.successor) in edges)
  {
    var edges := AfterAll(objects, rs);
    assert (rs + [r])[..|rs|] == rs;
    TakenExactly(objects, rs, r);
    ReachableGraphsAreAcyclic(objects, rs);
    forall w ensures w in ChainSet(edges, r.successor) <==> Reaches(edges, r.successor, w) { ChainSetExact(edges, r.successor, w); }
    CycleCheckExact(edges, r.predecessor, r.successor, ChainSet(edges, r.successor));
    if (r.predecessor, r.successor) in edges {
      assert edges + {(r.predecessor, r.successor)} == edges;
    }
  }
}
