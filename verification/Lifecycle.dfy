/** Starting and stopping the engine's dependencies in priority order. */
module Lifecycle {
  import opened Collections

  datatype Dependency = Dependency(name: string, priority: int)

  datatype EngineState = Stopped | Starting | Running | Stopping | Error | Maintenance

  /** How a dependency's `Start` goes: it may also succeed and leave it not running. */
  datatype StartOutcome = Started | StartFailed | NotRunning

  // ------------------------------------------------------------------ the bubble sort

  predicate InOrder(a: Dependency, b: Dependency, ascending: bool) {
    if ascending then a.priority <= b.priority else a.priority >= b.priority
  }

  ghost predicate Sorted(deps: seq<Dependency>, ascending: bool) {
    forall i, j :: 0 <= i < j < |deps| ==> InOrder(deps[i], deps[j], ascending)
  }

  /** From place `from` on everything is in its final place. */
  ghost predicate Settled(deps: seq<Dependency>, from: nat, ascending: bool)
    requires from <= |deps|
  {
    forall i, j :: 0 <= i < j < |deps| && from <= j ==> InOrder(deps[i], deps[j], ascending)
  }

  /** Nothing before place `j` should come after it. */
  ghost predicate Extreme(deps: seq<Dependency>, j: nat, ascending: bool)
    requires j < |deps|
  {
    forall i :: 0 <= i < j ==> InOrder(deps[i], deps[j], ascending)
  }

  function Swapped(deps: seq<Dependency>, j: nat): seq<Dependency>
    requires j + 1 < |deps|
  {
    deps[j := deps[j + 1]][j + 1 := deps[j]]
  }

  ghost predicate Permutes(a: seq<Dependency>, b: seq<Dependency>) {
    multiset(a) == multiset(b)
  }

  lemma SwapPermutes(deps: seq<Dependency>, j: nat, start: seq<Dependency>)
    requires j + 1 < |deps| && Permutes(deps, start)
    ensures Permutes(Swapped(deps, j), start)
  {
  }

  /** One comparison of the inner loop. */
  lemma BubbleStep(deps: seq<Dependency>, deps': seq<Dependency>, j: nat, from: nat, ascending: bool)
    requires j + 1 < from <= |deps| && Settled(deps, from, ascending) && Extreme(deps, j, ascending)
    requires deps' == if InOrder(deps[j], deps[j + 1], ascending) then deps else Swapped(deps, j)
    ensures Settled(deps', from, ascending) && Extreme(deps', j + 1, ascending)
  {
  }

  lemma PassSettlesOne(deps: seq<Dependency>, from: nat, ascending: bool)
    requires 0 < from <= |deps| && Settled(deps, from, ascending) && Extreme(deps, from - 1, ascending)
    ensures Settled(deps, from - 1, ascending)
  {
  }

  method SortByPriority(deps: array<Dependency>, ascending: bool)
    modifies deps
    ensures Sorted(deps[..], ascending) && Permutes(deps[..], old(deps[..]))
  {
    var n := deps.Length;
    var i := 0;
    while i < n - 1
      invariant 0 <= i <= n && (n > 0 ==> i <= n - 1)
      invariant Settled(deps[..], n - i, ascending) && Permutes(deps[..], old(deps[..]))
    {
      var j := 0;
      while j < n - i - 1
        invariant 0 <= j <= n - i - 1
        invariant Settled(deps[..], n - i, ascending) && Extreme(deps[..], j, ascending)
        invariant Permutes(deps[..], old(deps[..]))
      {
        ghost var before := deps[..];
        var shouldSwap := if ascending then deps[j].priority > deps[j + 1].priority else deps[j].priority < deps[j + 1].priority;
        if shouldSwap {
          deps[j], deps[j + 1] := deps[j + 1], deps[j];
          assert deps[..] == Swapped(before, j);
          SwapPermutes(before, j, old(deps[..]));
        }
        BubbleStep(before, deps[..], j, n - i, ascending);
        j := j + 1;
      }
      PassSettlesOne(deps[..], n - i, ascending);
      i := i + 1;
    }
  }

  // ----------------------------------------------------------------- start and stop

  /** `order` lists the dependencies by priority, each once. */
  ghost predicate IsOrder(order: seq<Dependency>, deps: map<string, int>, ascending: bool) {
    && Sorted(order, ascending)
    && Distinct(order)
    && (forall d :: d in order <==> d.name in deps && deps[d.name] == d.priority)
  }

  function Names(deps: seq<Dependency>): (names: seq<string>)
    ensures |names| == |deps| && forall i :: 0 <= i < |deps| ==> names[i] == deps[i].name
  {
    seq(|deps|, i requires 0 <= i < |deps| => deps[i].name)
  }

  function NameSet(deps: seq<Dependency>): set<string> {
    set d | d in deps :: d.name
  }

  lemma PermutationKeepsListing(a: seq<Dependency>, b: seq<Dependency>)
    requires Permutes(b, a)
    requires Distinct(a)
    ensures forall d :: d in b <==> d in a
    ensures Distinct(b)
  {
    forall d ensures d in b <==> d in a {
      assert d in multiset(a) <==> d in multiset(b);
    }
    forall d ensures multiset(a)[d] <= 1 {
      CountAtMostOne(a, d);
    }
    forall i, j | 0 <= i < j < |b| ensures b[i] != b[j] {
      CountedOnce(b, i, j);
    }
  }

  lemma {:induction false} CountAtMostOne(a: seq<Dependency>, d: Dependency)
    requires Distinct(a)
    ensures multiset(a)[d] <= 1
    decreases |a|
  {
    if a != [] {
      CountAtMostOne(a[1..], d);
      assert a == [a[0]] + a[1..];
      assert a[0] !in a[1..];
    }
  }

  /** The dependencies of `order` that run, in that order. */
  function RunningOf(order: seq<Dependency>, running: set<string>): seq<Dependency>
    decreases |order|
  {
    if order == [] then []
    else
      var last := order[|order| - 1];
      RunningOf(order[..|order| - 1], running) + if last.name in running then [last] else []
  }

  /** Of what ran before, the dependencies in `asked` run only if their `Stop` leaves them. */
  ghost predicate StillRunning(now: set<string>, before: set<string>, asked: set<string>, stays: string -> bool) {
    forall name :: name in now <==> name in before && (name !in asked || stays(name))
  }

  /** Starting went through the first `tried` of `order`, all but the last of a failed
      start successfully. */
  ghost predicate StartedUpTo(order: seq<Dependency>, tried: seq<string>, ok: bool, outcome: string -> StartOutcome) {
    && |tried| <= |order| && tried == Names(order[..|tried|])
    && (forall i :: 0 <= i < |tried| - (if ok then 0 else 1) ==> outcome(order[i].name).Started?)
    && (if ok then |tried| == |order| else |tried| > 0 && !outcome(order[|tried| - 1].name).Started?)
  }

  ghost predicate AllStarted(order: seq<Dependency>, i: nat, tried: seq<string>, outcome: string -> StartOutcome)
    requires i <= |order|
  {
    |tried| == i && StartedUpTo(order[..i], tried, true, outcome)
  }

  lemma TriedOneMore(order: seq<Dependency>, i: nat, tried: seq<string>, outcome: string -> StartOutcome)
    requires i < |order| && AllStarted(order, i, tried, outcome)
    ensures var longer, name := tried + [order[i].name], order[i].name;
      if outcome(name).Started? then AllStarted(order, i + 1, longer, outcome) else StartedUpTo(order, longer, false, outcome)
  {
    assert order[..i + 1] == order[..i] + [order[i]];
    assert order[..i][..i] == order[..i] && order[..i + 1][..i + 1] == order[..i + 1];
  }

  class LifecycleManager {
    var state: EngineState
    var dependencies: map<string, int>
    var running: set<string>     // what the dependencies' own `IsRunning` say

    constructor ()
      ensures state == Stopped && dependencies == map[] && running == {}
    {
      state, dependencies, running := Stopped, map[], {};
    }

    /** The loop over the map visits it in any order. */
    method ListDependencies() returns (deps: seq<Dependency>)
      ensures Distinct(deps)
      ensures forall d :: d in deps <==> d.name in dependencies && dependencies[d.name] == d.priority
    {
      deps := [];
      var left := dependencies.Keys;
      while left != {}
        invariant left <= dependencies.Keys
        invariant Distinct(deps)
        invariant forall d :: d in deps <==> d.name in dependencies && d.name !in left && dependencies[d.name] == d.priority
      {
        var name :| name in left;
        left := left - {name};
        deps := deps + [Dependency(name, dependencies[name])];
      }
    }

    method SortDependenciesByPriority(ascending: bool) returns (order: seq<Dependency>)
      ensures IsOrder(order, dependencies, ascending)
    {
      var list := ListDependencies();
      var deps := new Dependency[|list|](i requires 0 <= i < |list| => list[i]);
      assert deps[..] == list;
      SortByPriority(deps, ascending);
      PermutationKeepsListing(list, deps[..]);
      order := deps[..];
    }

    method StartDependencies(outcome: string -> StartOutcome)
      returns (ok: bool, order: seq<Dependency>, tried: seq<string>)
      modifies `running
      ensures IsOrder(order, dependencies, true) && StartedUpTo(order, tried, ok, outcome)
      ensures running == old(running) + NameSet(order[..if ok then |tried| else |tried| - 1])
    {
      order := SortDependenciesByPriority(true);
      tried, ok := [], true;
      for i := 0 to |order|
        invariant AllStarted(order, i, tried, outcome) && ok
        invariant running == old(running) + NameSet(order[..i])
      {
        var dep := order[i];
        TriedOneMore(order, i, tried, outcome);
        OneMoreName(order, i);
        tried := tried + [dep.name];
        if outcome(dep.name) == StartFailed {
          return false, order, tried;
        }
        if outcome(dep.name) == NotRunning {
          return false, order, tried;
        }
        running := running + {dep.name};
      }
    }

    /** `stays(name)` says that a dependency still runs after its `Stop`, and
        `fails(name)` that `Stop` returns an error; the loop goes on in any case. */
    method StopDependencies(stays: string -> bool, fails: string -> bool)
      returns (ok: bool, order: seq<Dependency>, tried: seq<string>)
      modifies `running
      ensures IsOrder(order, dependencies, false)
      ensures tried == Names(RunningOf(order, old(running)))
      ensures forall name :: name in running <==> name in old(running) && (name !in dependencies || stays(name))
      ensures ok <==> forall name :: name in tried ==> !fails(name)
    {
      order := SortDependenciesByPriority(false);
      tried, ok := [], true;
      assert order[..|order|] == order;
      for i := 0 to |order|
        invariant tried == Names(RunningOf(order[..i], old(running)))
        invariant StillRunning(running, old(running), NameSet(order[..i]), stays)
        invariant ok <==> forall name :: name in tried ==> !fails(name)
      {
        var dep := order[i];
        NotYetStopped(order, i, dependencies);
        OneMoreName(order, i);
        assert order[..i + 1][..i] == order[..i];
        if dep.name in running {
          tried := tried + [dep.name];
          if fails(dep.name) {
            ok := false;
          }
          if !stays(dep.name) {
            running := running - {dep.name};
          }
        }
      }
      NamesAll(order, dependencies);
    }

    /** `hooks` and `healthy`: the pre-start hooks and the health checks pass.  Without them
        nothing is tried; otherwise what was started stays running, whatever came after. */
    method Start(hooks: bool, healthy: bool, outcome: string -> StartOutcome)
      returns (ok: bool, order: seq<Dependency>, tried: seq<string>)
      modifies this
      ensures dependencies == old(dependencies)
      ensures old(state).Running? || old(state).Starting? ==> !ok && state == old(state) && tried == [] && running == old(running)
      ensures !old(state).Running? && !old(state).Starting? ==> state == if ok then Running else Error
      ensures !old(state).Running? && !old(state).Starting? && !(hooks && healthy) ==> !ok && tried == [] && running == old(running)
      ensures !old(state).Running? && !old(state).Starting? && hooks && healthy ==>
        && IsOrder(order, dependencies, true) && StartedUpTo(order, tried, ok, outcome)
        && running == old(running) + NameSet(order[..if ok then |tried| else |tried| - 1])
      ensures ok ==> dependencies.Keys <= running
    {
      tried, order, ok := [], [], false;
      if state == Running || state == Starting {
        return;
      }
      state := Starting;
      if !hooks || !healthy {
        state := Error;
        return;
      }
      ok, order, tried := StartDependencies(outcome);
      NamesAll(order, dependencies);
      assert order[..|order|] == order;
      state := if ok then Running else Error;
    }

    /** Errors of the dependencies do not keep the engine from becoming stopped. */
    method Stop(stays: string -> bool, fails: string -> bool) returns (ok: bool, tried: seq<string>)
      modifies this
      ensures dependencies == old(dependencies) && (ok <==> !old(state).Stopping?)
      ensures state == if ok then Stopped else Stopping
      ensures old(state).Stopped? || !ok ==> tried == [] && running == old(running)
      ensures !old(state).Stopped? && ok ==>
        forall name :: name in running <==> name in old(running) && (name !in dependencies || stays(name))
      ensures !old(state).Stopped? && ok ==>
        exists order :: IsOrder(order, dependencies, false) && tried == Names(RunningOf(order, old(running)))
    {
      tried, ok := [], true;
      if state == Stopped {
        return;
      }
      if state == Stopping {
        return false, tried;
      }
      state := Stopping;
      var allStopped, order;
      allStopped, order, tried := StopDependencies(stays, fails);
      state := Stopped;
    }
  }

  lemma OneMoreName(order: seq<Dependency>, i: nat)
    requires i < |order|
    ensures NameSet(order[..i + 1]) == NameSet(order[..i]) + {order[i].name}
  {
    assert order[..i + 1] == order[..i] + [order[i]];
  }

  lemma NotYetStopped(order: seq<Dependency>, i: nat, deps: map<string, int>)
    requires IsOrder(order, deps, false) && i < |order|
    ensures order[i].name !in NameSet(order[..i])
  {
    forall k | 0 <= k < i ensures order[k].name != order[i].name {
      assert order[k] in order && order[i] in order;
    }
  }

  lemma NamesAll(order: seq<Dependency>, deps: map<string, int>)
    requires IsOrder(order, deps, true) || IsOrder(order, deps, false)
    ensures NameSet(order) == deps.Keys
  {
    forall name ensures name in NameSet(order) <==> name in deps {
      if name in deps {
        assert Dependency(name, deps[name]) in order;
      }
    }
  }

  lemma NamesOf(prefix: seq<Dependency>)
    ensures forall name :: name in NameSet(prefix) <==> name in Names(prefix)
  {
    forall name ensures name in NameSet(prefix) <==> name in Names(prefix) {
      if name in NameSet(prefix) {
        var d :| d in prefix && d.name == name;
        var i :| 0 <= i < |prefix| && prefix[i] == d;
        assert Names(prefix)[i] == name;
      }
    }
  }

  // ------------------------------------------------------------------------ properties

  /** A failed start leaves everything of lower priority number than the failed dependency
      running: what was started is a prefix of the priority order. */
  lemma FailedStartLeavesPrefix(order: seq<Dependency>, deps: map<string, int>, tried: seq<string>, outcome: string -> StartOutcome)
    requires IsOrder(order, deps, true) && StartedUpTo(order, tried, false, outcome)
    ensures var failed := order[|tried| - 1];
      && (forall name :: name in deps && deps[name] < failed.priority ==> name in NameSet(order[..|tried| - 1]))
      && (forall name :: name in NameSet(order[..|tried| - 1]) ==> name in deps && deps[name] <= failed.priority)
  {
    var k := |tried| - 1;
    forall name | name in deps && deps[name] < order[k].priority ensures name in NameSet(order[..k]) {
      var d := Dependency(name, deps[name]);
      assert d in order;
      var i :| 0 <= i < |order| && order[i] == d;
      assert i < k;
      assert order[..k][i] == d;
    }
    forall name | name in NameSet(order[..k]) ensures name in deps && deps[name] <= order[k].priority {
      var d :| d in order[..k] && d.name == name;
      assert d in order;
    }
  }

  /** What starts strictly earlier for its priority stops strictly later. */
  lemma StopReversesStart(up: seq<Dependency>, down: seq<Dependency>, deps: map<string, int>, i: nat, j: nat, k: nat, l: nat)
    requires IsOrder(up, deps, true) && IsOrder(down, deps, false)
    requires i < |up| && j < |up| && k < |down| && l < |down| && up[i] == down[k] && up[j] == down[l]
    requires up[i].priority != up[j].priority
    ensures i < j <==> l < k
  {
    assert i < j ==> InOrder(up[i], up[j], true);
    assert j < i ==> InOrder(up[j], up[i], true);
    assert k < l ==> InOrder(down[k], down[l], false);
    assert l < k ==> InOrder(down[l], down[k], false);
  }

  lemma {:induction false} RunningOfExactly(order: seq<Dependency>, running: set<string>, ascending: bool)
    requires Sorted(order, ascending)
    ensures forall d :: d in RunningOf(order, running) <==> d in order && d.name in running
    ensures Sorted(RunningOf(order, running), ascending)
    decreases |order|
  {
    if order != [] {
      var n := |order| - 1;
      var front := RunningOf(order[..n], running);
      RunningOfExactly(order[..n], running, ascending);
      assert order == order[..n] + [order[n]];
      forall i | 0 <= i < |front| ensures InOrder(front[i], order[n], ascending) {
        assert front[i] in order[..n];
      }
    }
  }

  /** Stopping tries every dependency that runs and no other, in descending priority, even
      when earlier ones fail to stop. */
  lemma StopTriesAllRunning(order: seq<Dependency>, deps: map<string, int>, running: set<string>, name: string)
    requires IsOrder(order, deps, false)
    ensures Sorted(RunningOf(order, running), false)
    ensures name in Names(RunningOf(order, running)) <==> name in deps && name in running
  {
    RunningOfExactly(order, running, false);
    var tried := RunningOf(order, running);
    if name in deps && name in running {
      var d := Dependency(name, deps[name]);
      assert d in tried;
      var i :| 0 <= i < |tried| && tried[i] == d;
      assert Names(tried)[i] == name;
    }
    if name in Names(tried) {
      var i :| 0 <= i < |tried| && Names(tried)[i] == name;
      assert tried[i] in tried;
    }
  }

  /** Stopping after a failed start of an engine with nothing running tries exactly what
      was started, all of what was tried but the dependency that failed. */
  lemma StopUndoesFailedStart(up: seq<Dependency>, down: seq<Dependency>, deps: map<string, int>, tried: seq<string>,
                              outcome: string -> StartOutcome)
    requires IsOrder(up, deps, true) && IsOrder(down, deps, false) && StartedUpTo(up, tried, false, outcome)
    ensures var stopped := Names(RunningOf(down, NameSet(up[..|tried| - 1])));
      forall name :: name in stopped <==> name in tried[..|tried| - 1]
  {
    var started := up[..|tried| - 1];
    NamesOf(started);
    assert Names(started) == tried[..|tried| - 1];
    NamesAll(up, deps);
    forall name ensures name in Names(RunningOf(down, NameSet(started))) <==> name in tried[..|tried| - 1] {
      StopTriesAllRunning(down, deps, NameSet(started), name);
      assert name in NameSet(started) ==> name in NameSet(up);
    }
  }

  /** A start succeeds exactly when every dependency starts and runs; otherwise it went up to
      the first in order that does not, and all before that one started. */
  lemma StartedExactly(order: seq<Dependency>, deps: map<string, int>, tried: seq<string>, ok: bool, outcome: string -> StartOutcome)
    requires IsOrder(order, deps, true) && StartedUpTo(order, tried, ok, outcome)
    ensures ok <==> forall name :: name in deps ==> outcome(name) == Started
    ensures !ok ==>
      && tried != [] && outcome(tried[|tried| - 1]) != Started
      && forall i :: 0 <= i < |tried| - 1 ==> outcome(tried[i]) == Started
  {
    assert order[..|tried|][..|tried|] == order[..|tried|];
    if ok {
      forall name | name in deps ensures outcome(name) == Started {
        assert Dependency(name, deps[name]) in order;
        var i :| 0 <= i < |order| && order[i] == Dependency(name, deps[name]);
      }
    } else {
      var last := order[|tried| - 1];
      assert last in order && outcome(last.name) != Started;
    }
  }
}
