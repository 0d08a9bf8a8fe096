/** The depth-first sort of a batch's dependency graph, and the launch order the
    batch executor derives from it. */
module TopologicalSort {
  import opened Collections
  import opened DependencyGraph

  // ---------------------------------------------------------------- specification

  /** What the recursive visit mutates: the visited marks and the output list,
      here as identifiers before they are numbered. */
  datatype Dfs = Dfs(visited: set<string>, done: seq<string>)

  ghost function Visit(g: Graph, s: Dfs, id: string): (t: Dfs)
    requires id in Mentioned(g)
    ensures s.visited <= t.visited
    decreases Mentioned(g) - s.visited, 0
  {
    if id in s.visited then s
    else
      var t := VisitAll(g, Dfs(s.visited + {id}, s.done), Deps(g, id));
      if id in g then Dfs(t.visited, t.done + [id]) else t
  }

  ghost function VisitAll(g: Graph, s: Dfs, ids: seq<string>): (t: Dfs)
    requires Elements(ids) <= Mentioned(g)
    ensures s.visited <= t.visited
    decreases Mentioned(g) - s.visited, 1 + |ids|
  {
    if ids == [] then s
    else
      assert ids[0] in Elements(ids);
      assert Elements(ids[1..]) <= Elements(ids);
      VisitAll(g, Visit(g, s, ids[0]), ids[1..])
  }

  /** The identifiers in the order their visits finish, for one iteration order. */
  ghost function PostOrder(g: Graph, order: seq<string>): seq<string>
    requires Enumerates(order, g.Keys)
  {
    VisitAll(g, Dfs({}, []), order).done
  }

  /** `a` stands somewhere before `b` in `s`. */
  ghost predicate Before(s: seq<string>, a: string, b: string) {
    exists i, j :: 0 <= i < j < |s| && s[i] == a && s[j] == b
  }

  // ------------------------------------------------------------------- invariant

  /** A finished identifier has all its dependencies marked; each that is a key
      either finished earlier or depends back on it. */
  ghost predicate Explained(g: Graph, s: Dfs) {
    forall i, dep :: 0 <= i < |s.done| && dep in Deps(g, s.done[i]) ==>
      && dep in s.visited
      && (dep in g ==> dep in s.done[..i] || Reaches(g, dep, s.done[i]))
  }

  /** The state of the search while the visits in `stack` are still open. */
  ghost predicate Inv(g: Graph, s: Dfs, stack: set<string>) {
    && stack <= s.visited
    && Distinct(s.done)
    && Elements(s.done) == (s.visited * g.Keys) - stack
    && Explained(g, s)
  }

  lemma AppendFinished(g: Graph, t: Dfs, stack: set<string>, id: string)
    requires id !in stack && id in g
    requires Inv(g, t, stack + {id})
    requires forall x :: x in stack ==> Reaches(g, x, id)
    requires forall dep :: dep in Deps(g, id) ==> dep in t.visited
    ensures Inv(g, Dfs(t.visited, t.done + [id]), stack)
  {
    var done := t.done + [id];
    assert Elements(done) == Elements(t.done) + {id};
    forall i, dep | 0 <= i < |done| && dep in Deps(g, done[i])
      ensures dep in t.visited
      ensures dep in g ==> dep in done[..i] || Reaches(g, dep, done[i])
    {
      assert done[..i] == t.done[..i];
      if i == |t.done| && dep in g {
        assert done[..i] == t.done;
        if dep !in Elements(t.done) {
          assert dep in stack + {id};
          ReachesSelf(g, id);
        }
      }
    }
  }

  lemma {:induction false} VisitKeepsInv(g: Graph, s: Dfs, id: string, stack: set<string>)
    requires id in Mentioned(g) && Inv(g, s, stack)
    requires forall x :: x in stack ==> Reaches(g, x, id)
    ensures Inv(g, Visit(g, s, id), stack)
    ensures id in Visit(g, s, id).visited
    ensures s.done <= Visit(g, s, id).done
    ensures id !in s.visited && id in g ==> Visit(g, s, id).done != [] && Visit(g, s, id).done[|Visit(g, s, id).done| - 1] == id
    decreases Mentioned(g) - s.visited, 0
  {
    if id !in s.visited {
      var s1 := Dfs(s.visited + {id}, s.done);
      forall x, dep | x in stack + {id} && dep in Deps(g, id) ensures Reaches(g, x, dep) {
        ReachesSelf(g, id);
        ReachesThenEdge(g, x, id, dep);
      }
      VisitAllKeepsInv(g, s1, Deps(g, id), stack + {id});
      var t := VisitAll(g, s1, Deps(g, id));
      if id in g {
        AppendFinished(g, t, stack, id);
      }
    }
  }

  lemma {:induction false} VisitAllKeepsInv(g: Graph, s: Dfs, ids: seq<string>, stack: set<string>)
    requires Elements(ids) <= Mentioned(g) && Inv(g, s, stack)
    requires forall x, id :: x in stack && id in ids ==> Reaches(g, x, id)
    ensures Inv(g, VisitAll(g, s, ids), stack)
    ensures forall id :: id in ids ==> id in VisitAll(g, s, ids).visited
    ensures s.done <= VisitAll(g, s, ids).done
    decreases Mentioned(g) - s.visited, 1 + |ids|
  {
    if ids != [] {
      assert ids[0] in Elements(ids);
      assert Elements(ids[1..]) <= Elements(ids);
      VisitKeepsInv(g, s, ids[0], stack);
      VisitAllKeepsInv(g, Visit(g, s, ids[0]), ids[1..], stack);
    }
  }

  // ---------------------------------------------------------------- main results

  lemma PostOrderInv(g: Graph, order: seq<string>)
    requires Enumerates(order, g.Keys)
    ensures Inv(g, VisitAll(g, Dfs({}, []), order), {})
    ensures g.Keys <= VisitAll(g, Dfs({}, []), order).visited
  {
    VisitAllKeepsInv(g, Dfs({}, []), order, {});
    forall k | k in g ensures k in VisitAll(g, Dfs({}, []), order).visited {
      assert k in Elements(order);
    }
  }

  /** Cyclic or not, the sort lists every key exactly once. */
  lemma PostOrderIsPermutation(g: Graph, order: seq<string>)
    requires Enumerates(order, g.Keys)
    ensures Enumerates(PostOrder(g, order), g.Keys)
    ensures |PostOrder(g, order)| == |g|
  {
    PostOrderInv(g, order);
    EnumerationLength(PostOrder(g, order), g.Keys);
  }

  /** A dependency that does not depend back comes first, whatever else is cyclic. */
  lemma DependencyComesFirst(g: Graph, order: seq<string>, id: string, dep: string)
    requires Enumerates(order, g.Keys)
    requires id in g && dep in g && dep in g[id] && !Reaches(g, dep, id)
    ensures Before(PostOrder(g, order), dep, id)
  {
    PostOrderInv(g, order);
    var done := PostOrder(g, order);
    assert id in Elements(done);
    var j :| 0 <= j < |done| && done[j] == id;
    assert dep in Deps(g, done[j]);
    assert dep in done[..j];
    var i :| 0 <= i < j && done[..j][i] == dep;
    assert done[i] == dep;
  }

  /** Sorting an acyclic graph respects every dependency that is present. */
  lemma AcyclicIsTopological(g: Graph, order: seq<string>)
    requires Enumerates(order, g.Keys) && Acyclic(g)
    ensures forall id, dep :: id in g && dep in g && dep in g[id] ==> Before(PostOrder(g, order), dep, id)
  {
    forall id, dep | id in g && dep in g && dep in g[id] ensures Before(PostOrder(g, order), dep, id) {
      assert dep in Deps(g, id);
      DependencyComesFirst(g, order, id, dep);
    }
  }

  /** Starting the range at `dep`, all that `dep` depends on finishes before it. */
  lemma StartingAtDependencyDelaysIt(g: Graph, order: seq<string>, id: string, dep: string)
    requires Enumerates(order, g.Keys) && order != [] && order[0] == dep
    requires id in g && Reaches(g, dep, id)
    ensures !Before(PostOrder(g, order), dep, id)
  {
    var s0 := Dfs({}, []);
    assert dep in Elements(order);
    assert Elements(order[1..]) <= Elements(order);
    VisitKeepsInv(g, s0, dep, {});
    var s1 := Visit(g, s0, dep);
    VisitAllKeepsInv(g, s1, order[1..], {});
    PostOrderInv(g, order);
    forall x, y | x in s1.visited && y in Deps(g, x) ensures y in s1.visited {
      assert x in Elements(s1.done);
    }
    var steps: nat :| ReachesIn(g, dep, id, steps);
    ClosedUnderReachability(g, s1.visited, dep, id, steps);
    assert id in Elements(s1.done);
    var done := PostOrder(g, order);
    var k :| 0 <= k < |s1.done| && s1.done[k] == id;
    var last := |s1.done| - 1;
    assert done[k] == id && done[last] == dep;
  }

  /** Exactly when an edge is respected by every map iteration order: the
      dependency must not depend back on the operation. */
  lemma EdgeRespectedIffNotMutual(g: Graph, id: string, dep: string)
    requires id in g && dep in g && dep in g[id]
    ensures (forall order :: Enumerates(order, g.Keys) ==> Before(PostOrder(g, order), dep, id))
        <==> !Reaches(g, dep, id)
  {
    if Reaches(g, dep, id) {
      var rest := EnumerationExists(g.Keys - {dep});
      var order := [dep] + rest;
      assert Elements(order) == {dep} + Elements(rest);
      StartingAtDependencyDelaysIt(g, order, id, dep);
    } else {
      forall order | Enumerates(order, g.Keys) ensures Before(PostOrder(g, order), dep, id) {
        DependencyComesFirst(g, order, id, dep);
      }
    }
  }

  // --------------------------------------------------------------- implementation

  /** The position of `id` in the enumeration that numbers the operations. */
  function IndexIn(numbering: seq<string>, id: string): (i: nat)
    requires id in numbering
    ensures i < |numbering| && numbering[i] == id
    ensures forall j :: 0 <= j < i ==> numbering[j] != id
  {
    if numbering[0] == id then 0 else 1 + IndexIn(numbering[1..], id)
  }

  ghost function Numbered(numbering: seq<string>, ids: seq<string>): (r: seq<nat>)
    requires Elements(ids) <= Elements(numbering)
    ensures |r| == |ids|
    ensures forall i :: 0 <= i < |ids| ==> r[i] < |numbering| && numbering[r[i]] == ids[i]
  {
    seq(|ids|, i requires 0 <= i < |ids| =>
      assert ids[i] in Elements(ids);
      IndexIn(numbering, ids[i]))
  }

  /** What the sort returns: the finish order in the function's own numbering.  The
      two ranges over the same Go map, `numbering` and `order`, are unrelated. */
  ghost function SortedIndices(g: Graph, numbering: seq<string>, order: seq<string>): (r: seq<nat>)
    requires Enumerates(numbering, g.Keys) && Enumerates(order, g.Keys)
  {
    PostOrderIsPermutation(g, order);
    Numbered(numbering, PostOrder(g, order))
  }

  /** The closure `visit` with the variables it captures. */
  class Sorter {
    const graph: Graph
    const operationIndex: map<string, nat>
    const numbering: seq<string>
    var visited: set<string>
    var result: seq<nat>
    ghost var finished: seq<string>

    ghost predicate Valid()
      reads this
    {
      && Enumerates(numbering, graph.Keys)
      && operationIndex.Keys == graph.Keys
      && (forall id :: id in operationIndex ==>
            operationIndex[id] < |numbering| && numbering[operationIndex[id]] == id)
      && Elements(finished) <= Elements(numbering)
      && result == Numbered(numbering, finished)
    }

    ghost function Search(): Dfs
      reads this
    {
      Dfs(visited, finished)
    }

    constructor (graph: Graph, numbering: seq<string>)
      requires Enumerates(numbering, graph.Keys)
      ensures Valid() && this.graph == graph && this.numbering == numbering
      ensures Search() == Dfs({}, [])
    {
      this.graph := graph;
      this.numbering := numbering;
      var index: map<string, nat> := map[];
      var i := 0;
      while i < |numbering|
        invariant 0 <= i <= |numbering|
        invariant index.Keys == Elements(numbering[..i])
        invariant forall id :: id in index ==> index[id] < |numbering| && numbering[index[id]] == id
      {
        index := index[numbering[i] := i];
        assert numbering[..i + 1] == numbering[..i] + [numbering[i]];
        i := i + 1;
      }
      assert numbering[..i] == numbering;
      operationIndex := index;
      visited := {};
      result := [];
      finished := [];
    }

    method VisitOperation(opID: string)
      requires Valid() && opID in Mentioned(graph)
      modifies this
      ensures Valid()
      ensures Search() == Visit(graph, old(Search()), opID)
      decreases Mentioned(graph) - visited
    {
      if opID in visited {
        return;
      }
      visited := visited + {opID};
      ghost var entered := Search();
      var deps := if opID in graph then graph[opID] else [];
      var i := 0;
      while i < |deps|
        invariant 0 <= i <= |deps|
        invariant Valid() && entered.visited <= visited
        invariant Elements(deps[i..]) <= Mentioned(graph)
        invariant VisitAll(graph, Search(), deps[i..]) == VisitAll(graph, entered, deps)
      {
        assert deps[i] in Elements(deps[i..]);
        assert deps[i..][1..] == deps[i + 1..];
        VisitOperation(deps[i]);
        i := i + 1;
      }
      if opID in operationIndex {
        NumberedAppend(numbering, finished, opID, operationIndex[opID]);
        result := result + [operationIndex[opID]];
        finished := finished + [opID];
      }
    }
  }

  lemma NumberedAppend(numbering: seq<string>, ids: seq<string>, id: string, i: nat)
    requires Distinct(numbering) && i < |numbering| && numbering[i] == id
    requires Elements(ids) <= Elements(numbering)
    ensures Elements(ids + [id]) <= Elements(numbering)
    ensures Numbered(numbering, ids + [id]) == Numbered(numbering, ids) + [i]
  {
    assert Elements(ids + [id]) == Elements(ids) + {id};
    assert IndexIn(numbering, id) == i;
    var longer := Numbered(numbering, ids + [id]);
    assert longer[|ids|] == i;
  }

  method Sort(graph: Graph, numbering: seq<string>, order: seq<string>) returns (result: seq<nat>)
    requires Enumerates(numbering, graph.Keys) && Enumerates(order, graph.Keys)
    ensures result == SortedIndices(graph, numbering, order)
  {
    var sorter := new Sorter(graph, numbering);
    var i := 0;
    while i < |order|
      invariant 0 <= i <= |order|
      invariant sorter.Valid() && sorter.graph == graph && sorter.numbering == numbering
      invariant fresh(sorter)
      invariant Elements(order[i..]) <= Mentioned(graph)
      invariant VisitAll(graph, sorter.Search(), order[i..]) == VisitAll(graph, Dfs({}, []), order)
    {
      assert order[i] in Elements(order[i..]);
      assert order[i..][1..] == order[i + 1..];
      sorter.VisitOperation(order[i]);
      i := i + 1;
    }
    result := sorter.result;
  }

  // ------------------------------------------------------------------ launch loop

  datatype Operation = Operation(id: string, dependencies: seq<string>)

  function GraphOf(operations: seq<Operation>): Graph {
    if operations == [] then map[]
    else
      var last := operations[|operations| - 1];
      GraphOf(operations[..|operations| - 1])[last.id := last.dependencies]
  }

  method BuildDependencyGraph(operations: seq<Operation>) returns (graph: Graph)
    ensures graph == GraphOf(operations)
  {
    graph := map[];
    for i := 0 to |operations|
      invariant graph == GraphOf(operations[..i])
    {
      assert operations[..i + 1][..i] == operations[..i];
      graph := graph[operations[i].id := operations[i].dependencies];
    }
    assert operations[..|operations|] == operations;
  }

  ghost predicate DistinctIds(operations: seq<Operation>) {
    forall i, j :: 0 <= i < j < |operations| ==> operations[i].id != operations[j].id
  }

  lemma {:induction false} GraphKeys(operations: seq<Operation>)
    ensures forall id :: id in GraphOf(operations) <==> exists i :: 0 <= i < |operations| && operations[i].id == id
  {
    if operations != [] {
      var n := |operations| - 1;
      GraphKeys(operations[..n]);
      forall id | id in GraphOf(operations) ensures exists i :: 0 <= i < |operations| && operations[i].id == id {
        if id in GraphOf(operations[..n]) {
          var i :| 0 <= i < n && operations[..n][i].id == id;
          assert operations[i].id == id;
        } else {
          assert operations[n].id == id;
        }
      }
      forall i | 0 <= i < |operations| ensures operations[i].id in GraphOf(operations) {
        if i < n {
          assert operations[..n][i].id in GraphOf(operations[..n]);
        }
      }
    }
  }

  lemma SizeAfterInsert(g: Graph, id: string, deps: seq<string>)
    ensures |g[id := deps]| == if id in g then |g| else |g| + 1
  {
    assert g[id := deps].Keys == g.Keys + {id};
    if id in g {
      assert g.Keys + {id} == g.Keys;
    }
  }

  lemma {:induction false} GraphSize(operations: seq<Operation>)
    ensures |GraphOf(operations)| <= |operations|
    ensures |GraphOf(operations)| == |operations| <==> DistinctIds(operations)
  {
    if operations != [] {
      var n := |operations| - 1;
      var init, last := operations[..n], operations[n];
      GraphSize(init);
      SizeAfterInsert(GraphOf(init), last.id, last.dependencies);
      LastIdIsNew(operations);
    }
  }

  lemma LastIdIsNew(operations: seq<Operation>)
    requires operations != []
    ensures DistinctIds(operations) <==>
      && DistinctIds(operations[..|operations| - 1])
      && operations[|operations| - 1].id !in GraphOf(operations[..|operations| - 1])
  {
    var n := |operations| - 1;
    var init := operations[..n];
    GraphKeys(init);
    if operations[n].id in GraphOf(init) {
      var i :| 0 <= i < n && init[i].id == operations[n].id;
      assert operations[i].id == operations[n].id;
    } else {
      forall i | 0 <= i < n ensures operations[i].id != operations[n].id {
        assert init[i].id in GraphOf(init);
      }
      DistinctIdsExtend(operations);
    }
  }

  lemma DistinctIdsExtend(operations: seq<Operation>)
    requires operations != []
    requires forall i :: 0 <= i < |operations| - 1 ==> operations[i].id != operations[|operations| - 1].id
    ensures DistinctIds(operations) <==> DistinctIds(operations[..|operations| - 1])
  {
    var init := operations[..|operations| - 1];
    if DistinctIds(operations) {
      forall i, j | 0 <= i < j < |init| ensures init[i].id != init[j].id {
        assert operations[i].id != operations[j].id;
      }
    }
    if DistinctIds(init) {
      forall i, j | 0 <= i < j < |operations| ensures operations[i].id != operations[j].id {
        if j < |init| { assert init[i].id != init[j].id; }
      }
    }
  }

  /** The executor starts `operations[k]` once for every `k` in the sorted result. */
  ghost predicate LaunchesEachOnce(launched: seq<nat>, operations: seq<Operation>) {
    Covers(launched, |operations|)
  }

  /** `launched` is a permutation of 0, 1, ..., n - 1. */
  ghost predicate Covers(launched: seq<nat>, n: nat) {
    Distinct(launched) && forall k: nat :: k in launched <==> k < n
  }

  lemma SortedIndicesCover(g: Graph, numbering: seq<string>, order: seq<string>)
    requires Enumerates(numbering, g.Keys) && Enumerates(order, g.Keys)
    ensures Covers(SortedIndices(g, numbering, order), |g|)
  {
    PostOrderIsPermutation(g, order);
    EnumerationLength(numbering, g.Keys);
    var done := PostOrder(g, order);
    var launched := SortedIndices(g, numbering, order);
    forall k: nat | k < |g| ensures k in launched {
      assert numbering[k] in Elements(numbering);
      var i :| 0 <= i < |done| && done[i] == numbering[k];
      assert launched[i] == k;
    }
  }

  /** The indices the executor launches are an initial segment of the slice: all of
      it exactly when the identifiers are distinct.  With a repeated identifier the
      operations at the end of the slice never start. */
  lemma LaunchedOnceIffDistinctIds(operations: seq<Operation>, numbering: seq<string>, order: seq<string>)
    requires Enumerates(numbering, GraphOf(operations).Keys) && Enumerates(order, GraphOf(operations).Keys)
    ensures LaunchesEachOnce(SortedIndices(GraphOf(operations), numbering, order), operations) <==> DistinctIds(operations)
    ensures Covers(SortedIndices(GraphOf(operations), numbering, order), |GraphOf(operations)|)
  {
    var g := GraphOf(operations);
    SortedIndicesCover(g, numbering, order);
    GraphSize(operations);
    OneCover(SortedIndices(g, numbering, order), |g|, |operations|);
  }

  lemma OneCover(launched: seq<nat>, m: nat, n: nat)
    requires Covers(launched, m) && m <= n
    ensures Covers(launched, n) <==> m == n
  {
    if m < n {
      assert m !in launched;
    }
  }

  /** The identifiers in the order the executor launches them: the sorted indices are
      applied to the slice, not to the numbering they were made for. */
  ghost function LaunchedIds(operations: seq<Operation>, launched: seq<nat>): seq<string>
    requires forall k :: k in launched ==> k < |operations|
  {
    seq(|launched|, i requires 0 <= i < |launched| => assert launched[i] in launched; operations[launched[i]].id)
  }

  lemma LaunchesFollowIff(operations: seq<Operation>, launched: seq<nat>, numbering: seq<string>, done: seq<string>)
    requires Covers(launched, |numbering|) && |numbering| <= |operations| && |done| == |launched|
    requires forall i :: 0 <= i < |launched| ==> launched[i] < |numbering| && numbering[launched[i]] == done[i]
    ensures LaunchedIds(operations, launched) == done <==> forall k: nat :: k < |numbering| ==> numbering[k] == operations[k].id
  {
    var ids := LaunchedIds(operations, launched);
    if ids == done {
      forall k: nat | k < |numbering| ensures numbering[k] == operations[k].id {
        assert k in launched;
        var i :| 0 <= i < |launched| && launched[i] == k;
        assert ids[i] == done[i];
      }
    }
  }

  /** Exactly when the launches follow the sort: the map range that numbers the
      operations happens to run in slice order, as far as it goes. */
  lemma LaunchesFollowSortIffNumberedInSliceOrder(operations: seq<Operation>, numbering: seq<string>, order: seq<string>)
    requires Enumerates(numbering, GraphOf(operations).Keys) && Enumerates(order, GraphOf(operations).Keys)
    ensures |numbering| <= |operations| && Covers(SortedIndices(GraphOf(operations), numbering, order), |numbering|)
    ensures LaunchedIds(operations, SortedIndices(GraphOf(operations), numbering, order)) == PostOrder(GraphOf(operations), order)
        <==> forall k: nat :: k < |numbering| ==> numbering[k] == operations[k].id
  {
    var g := GraphOf(operations);
    GraphSize(operations);
    SortedIndicesCover(g, numbering, order);
    PostOrderIsPermutation(g, order);
    EnumerationLength(numbering, g.Keys);
    LaunchesFollowIff(operations, SortedIndices(g, numbering, order), numbering, PostOrder(g, order));
  }

  /** Each operation that lists another one of the batch is launched after it. */
  ghost predicate DependenciesFirst(operations: seq<Operation>, launched: seq<nat>) {
    forall i, j :: 0 <= i < |operations| && 0 <= j < |operations| && operations[i].id in operations[j].dependencies ==>
      LaunchedBefore(launched, i, j)
  }

  ghost predicate LaunchedBefore(launched: seq<nat>, i: nat, j: nat) {
    exists a, b :: 0 <= a < b < |launched| && launched[a] == i && launched[b] == j
  }

  /** Whatever the order of the two ranges over the map. */
  ghost predicate AlwaysDependenciesFirst(operations: seq<Operation>) {
    forall numbering, order ::
      Enumerates(numbering, GraphOf(operations).Keys) && Enumerates(order, GraphOf(operations).Keys) ==>
        DependenciesFirst(operations, SortedIndices(GraphOf(operations), numbering, order))
  }

  /** No operation lists an operation of the batch, itself included. */
  ghost predicate Independent(operations: seq<Operation>) {
    forall i, j :: 0 <= i < |operations| && 0 <= j < |operations| ==> operations[i].id !in operations[j].dependencies
  }

  function Swapped(s: seq<string>, i: nat, j: nat): (r: seq<string>)
    requires i < |s| && j < |s|
    ensures |r| == |s| && forall k :: 0 <= k < |s| ==> r[k] == if k == i then s[j] else if k == j then s[i] else s[k]
  {
    s[i := s[j]][j := s[i]]
  }

  lemma SwappedEnumerates(s: seq<string>, keys: set<string>, i: nat, j: nat)
    requires Enumerates(s, keys) && i < |s| && j < |s|
    ensures Enumerates(Swapped(s, i, j), keys)
  {
    var r := Swapped(s, i, j);
    forall k | 0 <= k < |s| ensures s[k] in Elements(r) {
      assert s[k] == r[if k == i then j else if k == j then i else k];
    }
    forall id ensures id in Elements(r) <==> id in keys {
      assert id in r ==> id in Elements(s);
    }
  }

  /** Launch positions are those of the finish order, read through the numbering. */
  lemma LaunchedBeforeFinishedBefore(g: Graph, numbering: seq<string>, order: seq<string>, i: nat, j: nat)
    requires Enumerates(numbering, g.Keys) && Enumerates(order, g.Keys)
    requires i < |numbering| && j < |numbering|
    ensures LaunchedBefore(SortedIndices(g, numbering, order), i, j) ==> Before(PostOrder(g, order), numbering[i], numbering[j])
  {
    PostOrderIsPermutation(g, order);
  }

  /** Numbered in the range's own order, or with places `i` and `j` swapped, one of the two
      comes late; a place past the numbering is never launched. */
  lemma SomeNumberingInverts(g: Graph, order: seq<string>, i: nat, j: nat) returns (numbering: seq<string>)
    requires Enumerates(order, g.Keys)
    ensures Enumerates(numbering, g.Keys)
    ensures !LaunchedBefore(SortedIndices(g, numbering, order), i, j)
  {
    numbering := order;
    EnumerationLength(order, g.Keys);
    if i < |order| && j < |order| {
      PostOrderIsPermutation(g, order);
      SwappedEnumerates(order, g.Keys, i, j);
      var done := PostOrder(g, order);
      NotBothWays(done, order[i], order[j]);
      numbering := if Before(done, order[i], order[j]) then Swapped(order, i, j) else order;
      LaunchedBeforeFinishedBefore(g, numbering, order, i, j);
    } else {
      SortedIndicesCover(g, numbering, order);
      assert i !in SortedIndices(g, numbering, order) || j !in SortedIndices(g, numbering, order);
    }
  }

  lemma NotBothWays(s: seq<string>, a: string, b: string)
    requires Distinct(s)
    ensures !(Before(s, a, b) && Before(s, b, a))
  {
  }

  /** Exactly when the batch's dependencies are launched first for certain: there are
      none inside the batch. */
  lemma LaunchesDependenciesFirstIffIndependent(operations: seq<Operation>)
    ensures AlwaysDependenciesFirst(operations) <==> Independent(operations)
  {
    if !Independent(operations) {
      var i, j :| 0 <= i < |operations| && 0 <= j < |operations| && operations[i].id in operations[j].dependencies;
      var order := EnumerationExists(GraphOf(operations).Keys);
      var numbering := SomeNumberingInverts(GraphOf(operations), order, i, j);
      assert !DependenciesFirst(operations, SortedIndices(GraphOf(operations), numbering, order));
    }
  }

  ghost const CHAIN: seq<Operation> := [Operation("a", []), Operation("b", ["a"])]

  lemma ChainGraph()
    ensures GraphOf(CHAIN) == map["a" := [], "b" := ["a"]]
    ensures Acyclic(GraphOf(CHAIN))
  {
    assert CHAIN[..1] == [Operation("a", [])];
    assert [Operation("a", [])][..0] == [];
    assert GraphOf([Operation("a", [])]) == map["a" := []];
    var g := GraphOf(CHAIN);
    forall x, y | y in Deps(g, x) ensures !Reaches(g, y, x) {
      forall steps: nat ensures !ReachesIn(g, "a", "b", steps) {
        if steps > 0 { assert forall c :: c !in Deps(g, "a"); }
      }
    }
  }

  lemma ChainPostOrder(g: Graph, order: seq<string>)
    requires g == map["a" := [], "b" := ["a"]] && Acyclic(g) && Enumerates(order, g.Keys)
    ensures PostOrder(g, order) == ["a", "b"]
  {
    AcyclicIsTopological(g, order);
    PostOrderIsPermutation(g, order);
    assert "a" in g && "b" in g && "a" in g["b"];
    TwoInOrder(PostOrder(g, order));
  }

  lemma TwoInOrder(done: seq<string>)
    requires Enumerates(done, {"a", "b"}) && Before(done, "a", "b")
    ensures done == ["a", "b"]
  {
    EnumerationLength(done, {"a", "b"});
  }

  /** A two-operation batch in which the dependent is launched before its dependency. */
  lemma LaunchCanInvertDependency()
    ensures DistinctIds(CHAIN) && Acyclic(GraphOf(CHAIN))
    ensures Enumerates(["b", "a"], GraphOf(CHAIN).Keys) && Enumerates(["a", "b"], GraphOf(CHAIN).Keys)
    ensures SortedIndices(GraphOf(CHAIN), ["b", "a"], ["a", "b"]) == [1, 0]
  {
    ChainGraph();
    var g := GraphOf(CHAIN);
    var order := ["a", "b"];
    assert Elements(order) == {"a", "b"} && Elements(["b", "a"]) == {"a", "b"};
    ChainPostOrder(g, order);
  }
}
