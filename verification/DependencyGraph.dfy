/** Dependency graphs as the source keeps them: a map from an identifier to the
    list of identifiers it depends on.  A listed dependency need not be a key. */
module DependencyGraph {
  import opened Collections

  type Graph = map<string, seq<string>>

  /** Looking up an absent key yields the empty list. */
  function Deps(g: Graph, id: string): seq<string> {
    if id in g then g[id] else []
  }

  /** Every identifier the graph mentions, as a key or as a dependency. */
  ghost function Mentioned(g: Graph): set<string> {
    g.Keys + set k, i | k in g && 0 <= i < |g[k]| :: g[k][i]
  }

  ghost predicate ReachesIn(g: Graph, a: string, b: string, steps: nat)
    decreases steps
  {
    if steps == 0 then a == b
    else exists c :: c in Deps(g, a) && ReachesIn(g, c, b, steps - 1)
  }

  /** `b` can be reached from `a` by following zero or more dependencies. */
  ghost predicate Reaches(g: Graph, a: string, b: string) {
    exists steps: nat :: ReachesIn(g, a, b, steps)
  }

  /** No identifier depends on itself, directly or through others. */
  ghost predicate Acyclic(g: Graph) {
    forall a, b :: b in Deps(g, a) ==> !Reaches(g, b, a)
  }

  lemma ReachesSelf(g: Graph, a: string)
    ensures Reaches(g, a, a)
  {
    assert ReachesIn(g, a, a, 0);
  }

  lemma {:induction false} ReachesInThenEdge(g: Graph, a: string, b: string, c: string, steps: nat)
    requires ReachesIn(g, a, b, steps) && c in Deps(g, b)
    ensures ReachesIn(g, a, c, steps + 1)
    decreases steps
  {
    if steps == 0 {
      assert ReachesIn(g, c, c, 0);
    } else {
      var d :| d in Deps(g, a) && ReachesIn(g, d, b, steps - 1);
      ReachesInThenEdge(g, d, b, c, steps - 1);
    }
  }

  lemma ReachesThenEdge(g: Graph, a: string, b: string, c: string)
    requires Reaches(g, a, b) && c in Deps(g, b)
    ensures Reaches(g, a, c)
  {
    var steps: nat :| ReachesIn(g, a, b, steps);
    ReachesInThenEdge(g, a, b, c, steps);
  }

  lemma EdgeThenReaches(g: Graph, a: string, b: string, c: string)
    requires b in Deps(g, a) && Reaches(g, b, c)
    ensures Reaches(g, a, c)
  {
    var steps: nat :| ReachesIn(g, b, c, steps);
    assert ReachesIn(g, a, c, steps + 1);
  }

  lemma {:induction false} ReachesInThenReaches(g: Graph, a: string, b: string, c: string, steps: nat)
    requires ReachesIn(g, a, b, steps) && Reaches(g, b, c)
    ensures Reaches(g, a, c)
    decreases steps
  {
    if steps > 0 {
      var d :| d in Deps(g, a) && ReachesIn(g, d, b, steps - 1);
      ReachesInThenReaches(g, d, b, c, steps - 1);
      EdgeThenReaches(g, a, d, c);
    }
  }

  // ------------------------------------------------------------ changing one list

  ghost predicate DifferAt(g: Graph, h: Graph, id: string) {
    forall k :: k != id ==> Deps(g, k) == Deps(h, k)
  }

  /** The way to `id` itself does not use the list of `id`. */
  lemma {:induction false} SameWayTo(g: Graph, h: Graph, id: string, a: string, steps: nat)
    requires DifferAt(g, h, id) && ReachesIn(g, a, id, steps)
    ensures Reaches(h, a, id)
    decreases steps
  {
    if a == id {
      ReachesSelf(h, id);
    } else {
      var c :| c in Deps(g, a) && ReachesIn(g, c, id, steps - 1);
      SameWayTo(g, h, id, c, steps - 1);
      EdgeThenReaches(h, a, c, id);
    }
  }

  /** Any other way exists in both graphs or leads through `id`. */
  lemma {:induction false} SameWayOrThrough(g: Graph, h: Graph, id: string, a: string, b: string, steps: nat)
    requires DifferAt(g, h, id) && ReachesIn(g, a, b, steps)
    ensures Reaches(h, a, b) || (Reaches(g, a, id) && Reaches(g, id, b))
    decreases steps
  {
    if a == id {
      ReachesSelf(g, id);
    } else if steps == 0 {
      ReachesSelf(h, a);
    } else {
      var c :| c in Deps(g, a) && ReachesIn(g, c, b, steps - 1);
      SameWayOrThrough(g, h, id, c, b, steps - 1);
      if Reaches(h, c, b) {
        EdgeThenReaches(h, a, c, b);
      } else {
        EdgeThenReaches(g, a, c, id);
      }
    }
  }

  /** A cycle of `h` that `g` has not leads through the new list of `id`. */
  lemma NewCycleIsThrough(g: Graph, h: Graph, id: string, a: string, b: string)
    requires DifferAt(g, h, id) && Acyclic(g) && b in Deps(h, a) && Reaches(h, b, a)
    ensures exists d :: d in Deps(h, id) && Reaches(g, d, id)
  {
    var steps: nat :| ReachesIn(h, b, a, steps);
    if a == id {
      SameWayTo(h, g, id, b, steps);
    } else {
      SameWayOrThrough(h, g, id, b, a, steps);
      assert b in Deps(g, a);
      var rest: nat :| ReachesIn(h, id, a, rest);
      var d :| d in Deps(h, id) && ReachesIn(h, d, a, rest - 1);
      EdgeThenReaches(h, a, b, id);
      ReachesInThenReaches(h, d, a, id, rest - 1);
      var way: nat :| ReachesIn(h, d, id, way);
      SameWayTo(h, g, id, d, way);
    }
  }

  /** Giving `id` a new list keeps a graph acyclic exactly when nothing on the list leads
      to `id` already. */
  lemma NewListKeepsAcyclicIff(g: Graph, h: Graph, id: string)
    requires DifferAt(g, h, id) && Acyclic(g)
    ensures Acyclic(h) <==> forall d :: d in Deps(h, id) ==> !Reaches(g, d, id)
  {
    if d :| d in Deps(h, id) && Reaches(g, d, id) {
      var steps: nat :| ReachesIn(g, d, id, steps);
      SameWayTo(g, h, id, d, steps);
    } else if !Acyclic(h) {
      var a, b :| b in Deps(h, a) && Reaches(h, b, a);
      NewCycleIsThrough(g, h, id, a, b);
    }
  }

  /** A set closed under dependencies contains all that its members reach. */
  lemma {:induction false} ClosedUnderReachability(g: Graph, closed: set<string>, a: string, b: string, steps: nat)
    requires forall x, y :: x in closed && y in Deps(g, x) ==> y in closed
    requires a in closed && ReachesIn(g, a, b, steps)
    ensures b in closed
    decreases steps
  {
    if steps > 0 {
      var c :| c in Deps(g, a) && ReachesIn(g, c, b, steps - 1);
      ClosedUnderReachability(g, closed, c, b, steps - 1);
    }
  }

  ghost function Elements<T>(s: seq<T>): set<T> {
    set x | x in s
  }

  /** `s` lists every member of `keys` once: one possible range over a map. */
  ghost predicate Enumerates<T>(s: seq<T>, keys: set<T>) {
    Distinct(s) && Elements(s) == keys
  }

  lemma {:induction false} EnumerationLength<T>(s: seq<T>, keys: set<T>)
    requires Enumerates(s, keys)
    ensures |s| == |keys|
    decreases |s|
  {
    if s == [] {
    } else {
      var last := s[|s| - 1];
      var init := s[..|s| - 1];
      assert s == init + [last];
      assert Elements(init) == keys - {last};
      EnumerationLength(init, keys - {last});
    }
  }

  /** Every finite set can be enumerated. */
  lemma {:induction false} EnumerationExists<T>(keys: set<T>) returns (s: seq<T>)
    ensures Enumerates(s, keys)
    decreases |keys|
  {
    if keys == {} {
      s := [];
    } else {
      var x :| x in keys;
      var rest := EnumerationExists(keys - {x});
      s := [x] + rest;
      assert Elements(s) == {x} + Elements(rest);
    }
  }
}
