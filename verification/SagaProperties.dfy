/** What compensation and a whole batch run leave in the transaction log. */
module SagaProperties {
  import opened Wrappers
  import opened BatchSaga
  import opened Collections
  import opened DependencyGraph
  import T = TopologicalSort

  // ------------------------------------------------------- what is to be compensated

  /** A copy that compensation calls a handler for. */
  predicate IsDue(log: seq<Entry>, batch: string, handlers: set<string>, i: nat)
    requires i < |log|
  {
    log[i].batch == Some(batch) && log[i].status.Completed? && log[i].kind in handlers
  }

  /** The places of such copies in the log, last first. */
  function Due(log: seq<Entry>, batch: string, handlers: set<string>): seq<nat>
    decreases |log|
  {
    if log == [] then []
    else
      var n := |log| - 1;
      (if IsDue(log, batch, handlers, n) then [n] else []) + Due(log[..n], batch, handlers)
  }

  ghost predicate Descending(due: seq<nat>) {
    forall i, j :: 0 <= i < j < |due| ==> due[i] > due[j]
  }

  lemma {:induction false} DueExactly(log: seq<Entry>, batch: string, handlers: set<string>)
    ensures var due := Due(log, batch, handlers);
      && Descending(due) && Within(due, |log|)
      && forall i: nat :: i in due <==> i < |log| && IsDue(log, batch, handlers, i)
    decreases |log|
  {
    if log != [] {
      var n := |log| - 1;
      var rest, due := Due(log[..n], batch, handlers), Due(log, batch, handlers);
      DueExactly(log[..n], batch, handlers);
      forall i: nat ensures i in due <==> i < |log| && IsDue(log, batch, handlers, i) {
        assert i in rest <==> i < n && IsDue(log[..n], batch, handlers, i);
        assert i in due <==> i in rest || (i == n && IsDue(log, batch, handlers, n));
      }
    }
  }

  lemma {:induction false} SameMembersSameDue(a: seq<nat>, b: seq<nat>)
    requires Descending(a) && Descending(b) && forall i: nat :: i in a <==> i in b
    ensures a == b
    decreases |a|
  {
    assert a == [] <==> b == [] by {
      assert a != [] ==> a[0] in a;
      assert b != [] ==> b[0] in b;
    }
    if a != [] {
      assert a[0] in a && b[0] in b;
      assert a[0] == b[0];
      forall i: nat ensures i in a[1..] <==> i in b[1..] {
        assert i in a[1..] <==> i in a && i != a[0];
        assert i in b[1..] <==> i in b && i != b[0];
      }
      SameMembersSameDue(a[1..], b[1..]);
    }
  }

  function Handled(ops: seq<Entry>, handlers: set<string>): seq<Entry>
    decreases |ops|
  {
    if ops == [] then []
    else (if ops[0].kind in handlers then [ops[0]] else []) + Handled(ops[1..], handlers)
  }

  ghost function At(log: seq<Entry>, places: seq<nat>): (ops: seq<Entry>)
    requires Within(places, |log|)
    ensures |ops| == |places| && forall k :: 0 <= k < |places| ==> ops[k] == log[places[k]]
  {
    seq(|places|, k requires 0 <= k < |places| => log[places[k]])
  }

  lemma HandledOneMore(ops: seq<Entry>, last: Entry, handlers: set<string>)
    ensures Handled(CompletedReversed(ops + [last]), handlers)
         == (if last.status.Completed? && last.kind in handlers then [last] else []) + Handled(CompletedReversed(ops), handlers)
  {
    var rest := CompletedReversed(ops);
    assert (ops + [last])[..|ops|] == ops;
    if last.status.Completed? {
      assert ([last] + rest)[1..] == rest;
    } else {
      assert [] + rest == rest;
    }
  }

  lemma {:induction false} DueWithin(log: seq<Entry>, batch: string, handlers: set<string>)
    ensures Within(Due(log, batch, handlers), |log|)
    decreases |log|
  {
    if log != [] {
      DueWithin(log[..|log| - 1], batch, handlers);
    }
  }

  lemma {:induction false} HandledIsDue(log: seq<Entry>, batch: string, handlers: set<string>)
    ensures var due := Due(log, batch, handlers);
      && Within(due, |log|)
      && Handled(CompletedReversed(OfBatch(log, batch)), handlers) == At(log, due)
    decreases |log|
  {
    DueWithin(log, batch, handlers);
    if log != [] {
      var n := |log| - 1;
      var last, front := log[n], log[..n];
      HandledIsDue(front, batch, handlers);
      var ops, rest := OfBatch(front, batch), Due(front, batch, handlers);
      assert At(log, Due(log, batch, handlers))
          == (if IsDue(log, batch, handlers, n) then [last] else []) + At(front, rest);
      if last.batch == Some(batch) {
        HandledOneMore(ops, last, handlers);
      } else {
        assert ops + [] == ops;
      }
    }
  }

  // ------------------------------------------------------------ what compensation does

  predicate CalledFor(called: seq<Entry>, id: string) {
    exists k :: 0 <= k < |called| && called[k].id == id
  }

  /** The entry at place `i` after the handlers of `called` ran, the last one failing
      unless `ok`: only the latest copy of a called identifier changes. */
  ghost function After(log: seq<Entry>, i: nat, called: seq<Entry>, ok: bool): Entry
    requires i < |log|
  {
    if !IsLatest(log, i) || !CalledFor(called, log[i].id) then log[i]
    else if !ok && called[|called| - 1].id == log[i].id then log[i].(status := Failed)
    else log[i].(status := RolledBack)
  }

  ghost predicate Changes(log: seq<Entry>, log': seq<Entry>, called: seq<Entry>, ok: bool) {
    |log'| == |log| && forall i: nat :: i < |log| ==> log'[i] == After(log, i, called, ok)
  }

  /** `calls` handlers were called before; the outcomes stop at the first failure. */
  ghost predicate StopsAtFailure(todo: seq<Entry>, called: seq<Entry>, ok: bool, outcomes: nat -> bool, calls: nat) {
    && called <= todo
    && (forall c: nat :: calls <= c < calls + |called| - (if ok then 0 else 1) ==> outcomes(c))
    && (if ok then called == todo else called != [] && !outcomes(calls + |called| - 1))
  }

  lemma ChangesOneMore(log: seq<Entry>, op: Entry, log': seq<Entry>, called: seq<Entry>, ok: bool)
    requires Changes(SetStatus(log, op.id, RolledBack), log', called, ok) && (!ok ==> called != [])
    ensures Changes(log, log', [op] + called, ok)
  {
    var first := SetStatus(log, op.id, RolledBack);
    var all := [op] + called;
    forall i: nat | i < |log| ensures log'[i] == After(log, i, all, ok) {
      SetStatusKeepsLatest(log, op.id, RolledBack, i);
      assert all[0] == op && forall k :: 0 <= k < |called| ==> all[k + 1] == called[k];
      assert CalledFor(all, log[i].id) <==> op.id == log[i].id || CalledFor(called, log[i].id);
    }
  }

  lemma FailureChanges(log: seq<Entry>, op: Entry)
    ensures Changes(log, SetStatus(log, op.id, Failed), [op], false)
  {
    assert [op][0] == op;
    forall i: nat | i < |log| ensures SetStatus(log, op.id, Failed)[i] == After(log, i, [op], false) {
      assert CalledFor([op], log[i].id) <==> op.id == log[i].id;
    }
  }

  lemma NothingChanges(log: seq<Entry>)
    ensures Changes(log, log, [], true)
  {
  }

  ghost predicate Compensated(log: seq<Entry>, todo: seq<Entry>, handlers: set<string>, outcomes: nat -> bool, calls: nat, r: Outcome) {
    && Changes(log, r.log, r.called, r.ok)
    && StopsAtFailure(Handled(todo, handlers), r.called, r.ok, outcomes, calls)
  }

  lemma CompensatedOneMore(log: seq<Entry>, todo: seq<Entry>, handlers: set<string>, outcomes: nat -> bool, calls: nat, rest: Outcome)
    requires todo != [] && todo[0].kind in handlers && outcomes(calls)
    requires Compensated(SetStatus(log, todo[0].id, RolledBack), todo[1..], handlers, outcomes, calls + 1, rest)
    ensures Compensated(log, todo, handlers, outcomes, calls, rest.(called := [todo[0]] + rest.called))
  {
    ChangesOneMore(log, todo[0], rest.log, rest.called, rest.ok);
    CalledOneMore(todo[0], Handled(todo[1..], handlers), rest.called, rest.ok, outcomes, calls);
  }

  lemma {:induction false} CompensateChanges(log: seq<Entry>, todo: seq<Entry>, handlers: set<string>,
                                             outcomes: nat -> bool, calls: nat)
    ensures Compensated(log, todo, handlers, outcomes, calls, Compensate(log, todo, handlers, outcomes, calls))
    decreases |todo|
  {
    if todo == [] {
      NothingChanges(log);
    } else if todo[0].kind !in handlers {
      CompensateChanges(log, todo[1..], handlers, outcomes, calls);
      assert [] + Handled(todo[1..], handlers) == Handled(todo[1..], handlers);
    } else if outcomes(calls) {
      var next := SetStatus(log, todo[0].id, RolledBack);
      CompensateChanges(next, todo[1..], handlers, outcomes, calls + 1);
      CompensatedOneMore(log, todo, handlers, outcomes, calls, Compensate(next, todo[1..], handlers, outcomes, calls + 1));
    } else {
      FailureChanges(log, todo[0]);
    }
  }

  lemma CalledOneMore(op: Entry, todo: seq<Entry>, called: seq<Entry>, ok: bool, outcomes: nat -> bool, calls: nat)
    requires outcomes(calls) && StopsAtFailure(todo, called, ok, outcomes, calls + 1)
    ensures StopsAtFailure([op] + todo, [op] + called, ok, outcomes, calls)
  {
  }

  /** The general law, for every log: handlers are called once for each completed copy of
      the batch, in reverse log order, up to the first failure; and the log changes at the
      latest copies of the called identifiers and nowhere else. */
  lemma CompensationExactly(log: seq<Entry>, batch: string, handlers: set<string>, outcomes: nat -> bool)
    ensures var r := CompensateBatch(log, batch, handlers, outcomes);
      var due := Due(log, batch, handlers);
      && Within(due, |log|)
      && StopsAtFailure(At(log, due), r.called, r.ok, outcomes, 0)
      && Changes(log, r.log, r.called, r.ok)
  {
    HandledIsDue(log, batch, handlers);
    CompensateChanges(log, CompletedReversed(OfBatch(log, batch)), handlers, outcomes, 0);
  }

  // ------------------------------------------------------- when due copies are the latest

  /** None of the copies to be compensated was logged again under its identifier. */
  ghost predicate DueAreLatest(log: seq<Entry>, batch: string, handlers: set<string>) {
    forall i: nat :: i < |log| && IsDue(log, batch, handlers, i) ==> IsLatest(log, i)
  }

  ghost predicate AllLatest(log: seq<Entry>, places: seq<nat>)
    requires Within(places, |log|)
  {
    forall k :: 0 <= k < |places| ==> IsLatest(log, places[k])
  }

  /** The first `done` due copies are rolled back, the next one failed unless all went
      well, and everything else is as it was. */
  ghost predicate RolledBackUpTo(log: seq<Entry>, log': seq<Entry>, due: seq<nat>, done: nat, ok: bool) {
    && |log'| == |log| && (if ok then done == |due| else done < |due|)
    && forall i: nat :: i < |log| ==>
         log'[i] == if i in due[..done] then log[i].(status := RolledBack)
                    else if !ok && i == due[done] then log[i].(status := Failed)
                    else log[i]
  }

  lemma CalledPlaces(log: seq<Entry>, due: seq<nat>, n: nat, i: nat)
    requires n <= |due| && i < |log| && Within(due, |log|) && AllLatest(log, due)
    ensures IsLatest(log, i) && CalledFor(At(log, due)[..n], log[i].id) <==> i in due[..n]
  {
    var called := At(log, due)[..n];
    assert forall k :: 0 <= k < n ==> due[k] < |log| && called[k] == log[due[k]];
    if IsLatest(log, i) && CalledFor(called, log[i].id) {
      var k :| 0 <= k < n && called[k].id == log[i].id;
      assert IsLatest(log, due[k]) && due[..n][k] == i;
    }
    if i in due[..n] {
      var k :| 0 <= k < n && due[..n][k] == i;
      assert IsLatest(log, due[k]) && called[k].id == log[i].id;
    }
  }

  function Done(called: seq<Entry>, ok: bool): int {
    if ok then |called| else |called| - 1
  }

  lemma ChangesRollBack(log: seq<Entry>, log': seq<Entry>, due: seq<nat>, called: seq<Entry>, ok: bool, i: nat)
    requires Descending(due) && Within(due, |log|) && AllLatest(log, due) && i < |log|
    requires called <= At(log, due) && (if ok then called == At(log, due) else called != [])
    ensures var done := Done(called, ok);
      After(log, i, called, ok)
        == if i in due[..done] then log[i].(status := RolledBack)
           else if !ok && i == due[done] then log[i].(status := Failed)
           else log[i]
  {
    var n := |called|;
    assert called == At(log, due)[..n];
    CalledPlaces(log, due, n, i);
    if !ok {
      assert due[..n] == due[..n - 1] + [due[n - 1]];
      assert called[n - 1] == log[due[n - 1]] && IsLatest(log, due[n - 1]);
    }
  }

  lemma DueAreAllLatest(log: seq<Entry>, batch: string, handlers: set<string>)
    requires DueAreLatest(log, batch, handlers)
    ensures var due := Due(log, batch, handlers); Within(due, |log|) && AllLatest(log, due)
  {
    var due := Due(log, batch, handlers);
    DueExactly(log, batch, handlers);
    forall k | 0 <= k < |due| ensures IsLatest(log, due[k]) {
      assert due[k] in due;
    }
  }

  /** Where each is the latest copy, a success rolls back every completed operation that has
      a compensator and touches no other; after a failure the failed one is `Failed`, those
      logged after it are rolled back, and those logged before it are still completed. */
  lemma CompensationOfLatest(log: seq<Entry>, batch: string, handlers: set<string>, outcomes: nat -> bool)
    requires DueAreLatest(log, batch, handlers)
    ensures var r := CompensateBatch(log, batch, handlers, outcomes);
      && Done(r.called, r.ok) >= 0
      && RolledBackUpTo(log, r.log, Due(log, batch, handlers), Done(r.called, r.ok), r.ok)
  {
    var r, due := CompensateBatch(log, batch, handlers, outcomes), Due(log, batch, handlers);
    CompensationExactly(log, batch, handlers, outcomes);
    DueExactly(log, batch, handlers);
    DueAreAllLatest(log, batch, handlers);
    forall i: nat | i < |log|
      ensures r.log[i] == if i in due[..Done(r.called, r.ok)] then log[i].(status := RolledBack)
                          else if !r.ok && i == due[Done(r.called, r.ok)] then log[i].(status := Failed)
                          else log[i] {
      ChangesRollBack(log, r.log, due, r.called, r.ok, i);
    }
  }

  /** After a success every completed operation with a compensator is rolled back exactly
      when none of them was logged again under its identifier: a copy that was stays
      completed, and the update meant for it lands on the later copy. */
  lemma AllRolledBackIff(log: seq<Entry>, batch: string, handlers: set<string>, outcomes: nat -> bool)
    requires CompensateBatch(log, batch, handlers, outcomes).ok
    ensures var r := CompensateBatch(log, batch, handlers, outcomes);
      |r.log| == |log| &&
      ((forall i: nat :: i < |log| && IsDue(log, batch, handlers, i) ==> r.log[i].status.RolledBack?)
        <==> DueAreLatest(log, batch, handlers))
  {
    var r, due := CompensateBatch(log, batch, handlers, outcomes), Due(log, batch, handlers);
    CompensationExactly(log, batch, handlers, outcomes);
    DueExactly(log, batch, handlers);
    forall i: nat | i < |log| && IsDue(log, batch, handlers, i)
      ensures r.log[i].status.RolledBack? <==> IsLatest(log, i) {
      assert i in due;
      var k :| 0 <= k < |due| && due[k] == i;
      assert At(log, due)[k] == log[i];
      assert r.log[i] == After(log, i, r.called, r.ok);
    }
  }

  /** The same operation in two runs of a batch, completed and then failed: compensation
      reports success, and the first copy stays completed. */
  lemma SecondRunKeepsCompleted() returns (op: Entry, log: seq<Entry>)
    ensures var completed, failed := Ending(1, Completed, true, false), Ending(1, Failed, true, true);
      var first := AfterRuns(PendingCopies([op]), Ids([op]), [completed], [0]);
      log == AfterRuns(first + PendingCopies([op]), Ids([op]), [failed], [0])
    ensures var r := CompensateBatch(log, "batch", {op.kind}, _ => true);
      |r.log| == |log| == 2 && r.ok && log[0].status.Completed? && r.log[0] == log[0]
  {
    op := Entry("x", "create", Some("batch"), [], Pending);
    var completed, failed := Ending(1, Completed, true, false), Ending(1, Failed, true, true);
    var one := PendingCopies([op]);
    assert [0][1..] == [] && one == [op];
    var first := LogAfter(one, op.id, false, completed);
    assert IsLatest(one, 0) && first == [op.(status := Completed)];
    assert AfterRuns(one, Ids([op]), [completed], [0]) == AfterRuns(first, Ids([op]), [completed], []) == first;
    var two := first + one;
    log := LogAfter(two, op.id, false, failed);
    assert two[1].id == two[0].id && !IsLatest(two, 0) && IsLatest(two, 1);
    assert log[0] == first[0] && log[1].id == log[0].id;
    assert AfterRuns(two, Ids([op]), [failed], [0]) == AfterRuns(log, Ids([op]), [failed], []) == log;
    CompensationExactly(log, "batch", {op.kind}, _ => true);
    var r := CompensateBatch(log, "batch", {op.kind}, _ => true);
    assert !IsLatest(log, 0);
    assert r.log[0] == After(log, 0, r.called, r.ok);
  }

  lemma RolledBackLeaves(log: seq<Entry>, log': seq<Entry>, batch: string, handlers: set<string>, done: nat, ok: bool)
    requires RolledBackUpTo(log, log', Due(log, batch, handlers), done, ok)
    ensures Due(log', batch, handlers) == if ok then [] else Due(log, batch, handlers)[done + 1..]
  {
    var due, due' := Due(log, batch, handlers), Due(log', batch, handlers);
    var rest := if ok then [] else due[done + 1..];
    DueExactly(log, batch, handlers);
    DueExactly(log', batch, handlers);
    if ok {
      assert due[..done] == due;
    } else {
      forall i: nat ensures i in due' <==> i in rest {
        DescendingSplit(due, done, i);
      }
    }
    SameMembersSameDue(due', rest);
  }

  /** A strictly descending list mentions each place once. */
  lemma DescendingSplit(due: seq<nat>, done: nat, i: nat)
    requires Descending(due) && done < |due|
    ensures i in due[done + 1..] <==> i in due && i !in due[..done] && i != due[done]
  {
    assert due == due[..done] + [due[done]] + due[done + 1..];
    forall k | done < k < |due| ensures due[k] !in due[..done] && due[k] != due[done] {
    }
  }

  lemma RestIsUntouched(log: seq<Entry>, log': seq<Entry>, batch: string, handlers: set<string>, done: nat)
    requires RolledBackUpTo(log, log', Due(log, batch, handlers), done, false)
    requires Within(Due(log, batch, handlers), |log|) && Within(Due(log', batch, handlers), |log|)
    ensures At(log', Due(log', batch, handlers)) == At(log, Due(log, batch, handlers))[done + 1..]
  {
    var due, due' := Due(log, batch, handlers), Due(log', batch, handlers);
    RolledBackLeaves(log, log', batch, handlers, done, false);
    DueExactly(log, batch, handlers);
    forall k | 0 <= k < |due'| ensures At(log', due')[k] == At(log, due)[done + 1 + k] {
      assert due'[k] == due[done + 1 + k] && due'[k] in due';
      DescendingSplit(due, done, due'[k]);
    }
  }

  lemma NothingDue(log: seq<Entry>, batch: string, handlers: set<string>, outcomes: nat -> bool)
    requires Due(log, batch, handlers) == []
    ensures CompensateBatch(log, batch, handlers, outcomes) == Outcome(log, [], true)
  {
    CompensationExactly(log, batch, handlers, outcomes);
    assert CompensateBatch(log, batch, handlers, outcomes).log == log;
  }

  /** Compensating again never calls a handler twice for an operation it rolled back or
      failed: after a success there is nothing left to do, and after a failure the second
      pass starts with the operation logged before the failed one. */
  lemma SecondCompensation(log: seq<Entry>, batch: string, handlers: set<string>, outcomes: nat -> bool, again: nat -> bool)
    requires DueAreLatest(log, batch, handlers)
    ensures var first := CompensateBatch(log, batch, handlers, outcomes);
      var second := CompensateBatch(first.log, batch, handlers, again);
      var due := Due(log, batch, handlers);
      && Within(due, |log|) && |first.called| <= |due|
      && (first.ok ==> second == Outcome(first.log, [], true))
      && (!first.ok ==> second.called <= At(log, due)[|first.called|..])
  {
    var first := CompensateBatch(log, batch, handlers, outcomes);
    CompensationOfLatest(log, batch, handlers, outcomes);
    DueExactly(log, batch, handlers);
    if first.ok {
      RolledBackLeaves(log, first.log, batch, handlers, |first.called|, true);
      NothingDue(first.log, batch, handlers, again);
    } else {
      DueExactly(first.log, batch, handlers);
      RestIsUntouched(log, first.log, batch, handlers, |first.called| - 1);
      CompensationExactly(first.log, batch, handlers, again);
    }
  }

  /** After a success a second pass calls nothing exactly when every due copy was the
      latest: one that was logged again is compensated again on every pass. */
  lemma SecondPassIsIdleIff(log: seq<Entry>, batch: string, handlers: set<string>, outcomes: nat -> bool, again: nat -> bool)
    requires CompensateBatch(log, batch, handlers, outcomes).ok
    ensures var first := CompensateBatch(log, batch, handlers, outcomes);
      CompensateBatch(first.log, batch, handlers, again).called == [] <==> DueAreLatest(log, batch, handlers)
  {
    var first := CompensateBatch(log, batch, handlers, outcomes);
    if DueAreLatest(log, batch, handlers) {
      SecondCompensation(log, batch, handlers, outcomes, again);
    } else {
      var i: nat :| i < |log| && IsDue(log, batch, handlers, i) && !IsLatest(log, i);
      CompensationExactly(log, batch, handlers, outcomes);
      assert first.log[i] == After(log, i, first.called, true) == log[i];
      DueExactly(first.log, batch, handlers);
      assert i in Due(first.log, batch, handlers);
      CompensationExactly(first.log, batch, handlers, again);
    }
  }

  // --------------------------------------------------------------- a whole batch run

  /** Operation `k` sits at place `base + k` of the log. */
  ghost predicate Sits(log: seq<Entry>, base: nat, ids: seq<string>) {
    |log| == base + |ids| && forall i: nat :: base <= i < |log| ==> log[i].id == ids[i - base]
  }

  function Ended(op: Entry, e: Ending): Entry {
    if e.logged then op.(status := e.status) else op
  }

  /** An older copy under the same identifier is out of reach of an update. */
  lemma LatestSits(log: seq<Entry>, base: nat, ids: seq<string>, k: nat, i: nat)
    requires Sits(log, base, ids) && Distinct(ids) && k < |ids| && i < |log|
    ensures IsLatest(log, i) && log[i].id == ids[k] <==> i == base + k
  {
    assert log[base + k].id == ids[k];
    if i == base + k {
      forall j | i < j < |log| ensures log[j].id != log[i].id {
        assert log[j].id == ids[j - base];
      }
    }
  }

  lemma AfterRunExactly(log: seq<Entry>, base: nat, ids: seq<string>, k: nat, e: Ending)
    requires Sits(log, base, ids) && Distinct(ids) && k < |ids|
    ensures var log' := LogAfter(log, ids[k], false, e);
      && Sits(log', base, ids)
      && forall i: nat :: i < |log| ==> log'[i] == if i == base + k then Ended(log[i], e) else log[i]
  {
    forall i: nat | i < |log| ensures IsLatest(log, i) && log[i].id == ids[k] <==> i == base + k {
      LatestSits(log, base, ids, k, i);
    }
  }

  /** `log'` is `log` after the runs of the places in `order`. */
  ghost predicate EndedIn(log: seq<Entry>, log': seq<Entry>, base: nat, endings: seq<Ending>, order: seq<nat>) {
    && Within(order, |endings|) && |log'| == |log|
    && forall i: nat :: i < |log| ==>
         log'[i] == if i >= base && i - base in order then Ended(log[i], endings[i - base]) else log[i]
  }

  lemma EndedInOneMore(log: seq<Entry>, next: seq<Entry>, log': seq<Entry>, base: nat, endings: seq<Ending>, order: seq<nat>)
    requires order != [] && Distinct(order) && Within(order, |endings|)
    requires EndedIn(next, log', base, endings, order[1..]) && |next| == |log|
    requires forall i: nat :: i < |log| ==> next[i] == if i == base + order[0] then Ended(log[i], endings[order[0]]) else log[i]
    ensures EndedIn(log, log', base, endings, order)
  {
    assert order[0] !in order[1..];
    assert order == [order[0]] + order[1..];
  }

  /** The order in which the goroutines finish does not matter. */
  lemma {:induction false} AfterRunsExactly(log: seq<Entry>, base: nat, ids: seq<string>, endings: seq<Ending>, order: seq<nat>)
    requires Sits(log, base, ids) && Distinct(ids) && |endings| == |ids|
    requires Distinct(order) && Within(order, |ids|)
    ensures EndedIn(log, AfterRuns(log, ids, endings, order), base, endings, order)
    decreases |order|
  {
    if order != [] {
      var next := LogAfter(log, ids[order[0]], false, endings[order[0]]);
      AfterRunExactly(log, base, ids, order[0], endings[order[0]]);
      AfterRunsExactly(next, base, ids, endings, order[1..]);
      EndedInOneMore(log, next, AfterRuns(log, ids, endings, order), base, endings, order);
    }
  }

  // ------------------------------------------------------------------- all or nothing

  /** What a batch's operation is left as: its copy after its own run, turned back if it
      completed and can be compensated and some operation of the batch failed. */
  function LeftAs(op: Entry, e: Ending, handlers: set<string>, failed: bool): Entry {
    var copy := Ended(op.(status := Pending), e);
    if failed && copy.status.Completed? && copy.kind in handlers then copy.(status := RolledBack) else copy
  }

  /** The batch names each of its operations once, and no older entry is of the batch.
      Older entries may have any identifiers, also those of its operations. */
  ghost predicate NewBatch(log: seq<Entry>, ops: seq<Entry>, batch: string) {
    && Distinct(Ids(ops))
    && (forall i :: 0 <= i < |ops| ==> ops[i].batch == Some(batch))
    && forall i :: 0 <= i < |log| ==> log[i].batch != Some(batch)
  }

  /** The older entries are as before, and each operation is left as `LeftAs` says. */
  ghost predicate BatchLeft(log: seq<Entry>, log': seq<Entry>, ops: seq<Entry>, endings: seq<Ending>, handlers: set<string>, failed: bool)
    requires |endings| == |ops|
  {
    && |log'| == |log| + |ops|
    && (forall i: nat :: i < |log| ==> log'[i] == log[i])
    && forall i: nat :: |log| <= i < |log'| ==> log'[i] == LeftAs(ops[i - |log|], endings[i - |log|], handlers, failed)
  }

  lemma BatchRan(log: seq<Entry>, ops: seq<Entry>, batch: string, endings: seq<Ending>, order: seq<nat>, handlers: set<string>)
    requires NewBatch(log, ops, batch) && |endings| == |ops|
    requires Distinct(order) && Within(order, |ops|) && forall k: nat :: k < |ops| ==> k in order
    ensures var ran := AfterRuns(log + PendingCopies(ops), Ids(ops), endings, order);
      BatchLeft(log, ran, ops, endings, handlers, false) && DueAreLatest(ran, batch, handlers)
  {
    var start, ids := log + PendingCopies(ops), Ids(ops);
    AfterRunsExactly(start, |log|, ids, endings, order);
    var ran := AfterRuns(start, ids, endings, order);
    assert BatchLeft(log, ran, ops, endings, handlers, false);
    forall i: nat | i < |ran| && IsDue(ran, batch, handlers, i) ensures IsLatest(ran, i) {
      assert i >= |log|;
      LatestSits(ran, |log|, ids, i - |log|, i);
    }
  }

  lemma BatchCompensated(log: seq<Entry>, ran: seq<Entry>, log': seq<Entry>, ops: seq<Entry>, batch: string,
                         endings: seq<Ending>, handlers: set<string>)
    requires NewBatch(log, ops, batch) && |endings| == |ops| && BatchLeft(log, ran, ops, endings, handlers, false)
    requires var due := Due(ran, batch, handlers); RolledBackUpTo(ran, log', due, |due|, true)
    ensures BatchLeft(log, log', ops, endings, handlers, true)
  {
    var due := Due(ran, batch, handlers);
    DueExactly(ran, batch, handlers);
    assert due[..|due|] == due;
    forall i: nat | i < |ran|
      ensures log'[i] == if IsDue(ran, batch, handlers, i) then ran[i].(status := RolledBack) else ran[i] {
      assert i in due <==> IsDue(ran, batch, handlers, i);
    }
  }

  /** Whatever was logged before, and for any order of finishing: without a failure each operation
      is left as its own run ended; with one, and when compensation succeeds, no completed
      operation that has a compensator stays completed, and nothing else is touched. */
  lemma BatchIsAllOrNothing(log: seq<Entry>, ops: seq<Entry>, batch: string, endings: seq<Ending>, order: seq<nat>,
                            handlers: set<string>, outcomes: nat -> bool)
    requires NewBatch(log, ops, batch) && |endings| == |ops|
    requires Distinct(order) && Within(order, |ops|) && forall k: nat :: k < |ops| ==> k in order
    ensures var ran := AfterRuns(log + PendingCopies(ops), Ids(ops), endings, order);
      var r := CompensateBatch(ran, batch, handlers, outcomes);
      && BatchLeft(log, ran, ops, endings, handlers, false)
      && (r.ok ==> BatchLeft(log, r.log, ops, endings, handlers, true))
  {
    BatchRan(log, ops, batch, endings, order, handlers);
    var ran := AfterRuns(log + PendingCopies(ops), Ids(ops), endings, order);
    CompensationOfLatest(ran, batch, handlers, outcomes);
    var r := CompensateBatch(ran, batch, handlers, outcomes);
    if r.ok {
      BatchCompensated(log, ran, r.log, ops, batch, endings, handlers);
    }
  }

  lemma LaunchOrderCovers(ops: seq<Entry>, numbering: seq<string>, ranging: seq<string>)
    requires Enumerates(numbering, T.GraphOf(Nodes(ops)).Keys) && Enumerates(ranging, T.GraphOf(Nodes(ops)).Keys)
    requires Distinct(Ids(ops))
    ensures T.Covers(LaunchOrder(ops, numbering, ranging), |ops|)
  {
    assert forall i :: 0 <= i < |ops| ==> Nodes(ops)[i].id == Ids(ops)[i];
    T.LaunchedOnceIffDistinctIds(Nodes(ops), numbering, ranging);
  }

  lemma ReorderedCovers(finishing: seq<nat>, launched: seq<nat>, n: nat)
    requires Reorders(finishing, launched) && T.Covers(launched, n)
    ensures T.Covers(finishing, n)
  {
    DistinctOnce(launched);
    forall i, j | 0 <= i < j < |finishing| ensures finishing[i] != finishing[j] {
      assert multiset(launched)[finishing[i]] <= 1;
      CountedOnce(finishing, i, j);
    }
    forall k: nat ensures k in finishing <==> k < n {
      assert k in finishing <==> k in multiset(finishing);
      assert k in launched <==> k in multiset(launched);
    }
  }

  lemma CoveringFails(endings: seq<Ending>, order: seq<nat>)
    requires T.Covers(order, |endings|) && Within(order, |endings|)
    ensures SomeFailed(endings, order) <==> exists k :: 0 <= k < |endings| && endings[k].failed
  {
    if k :| 0 <= k < |endings| && endings[k].failed {
      assert k in order;
      var i :| 0 <= i < |order| && order[i] == k;
    }
  }

  /** From end to end, whatever was logged before, the dependencies, both ranges of the sort
      and the order in which the goroutines finish: every operation runs once, an error is
      reported exactly when one of them failed, and then a successful compensation leaves
      nothing completed that has a compensator. */
  lemma SortedBatchIsAllOrNothing(log: seq<Entry>, ops: seq<Entry>, batch: string, endings: seq<Ending>,
                                  numbering: seq<string>, ranging: seq<string>, finishing: seq<nat>,
                                  handlers: set<string>, outcomes: nat -> bool)
    requires NewBatch(log, ops, batch) && |endings| == |ops|
    requires Enumerates(numbering, T.GraphOf(Nodes(ops)).Keys) && Enumerates(ranging, T.GraphOf(Nodes(ops)).Keys)
    requires Reorders(finishing, LaunchOrder(ops, numbering, ranging))
    ensures T.Covers(finishing, |ops|) && Within(finishing, |ops|)
    ensures SomeFailed(endings, finishing) <==> exists k :: 0 <= k < |ops| && endings[k].failed
    ensures var ran := AfterRuns(log + PendingCopies(ops), Ids(ops), endings, finishing);
      var r := CompensateBatch(ran, batch, handlers, outcomes);
      && BatchLeft(log, ran, ops, endings, handlers, false)
      && (r.ok ==> BatchLeft(log, r.log, ops, endings, handlers, true))
  {
    LaunchOrderCovers(ops, numbering, ranging);
    ReorderedCovers(finishing, LaunchOrder(ops, numbering, ranging), |ops|);
    WithinCover(finishing, |ops|, |ops|);
    CoveringFails(endings, finishing);
    BatchIsAllOrNothing(log, ops, batch, endings, finishing, handlers, outcomes);
  }

  // ------------------------------------------------- from the handlers' calls to the log

  /** Whether a run of the batch reports an error. */
  ghost predicate BatchErrs(ops: seq<Entry>, handlers: set<string>, maxRetries: int,
                            attempts: nat -> nat -> Attempt, cancelled: nat -> nat -> bool) {
    exists k: nat :: k < |ops| &&
      (ops[k].kind !in handlers || (maxRetries >= 1 && !Succeeds(attempts(k), cancelled(k), maxRetries)))
  }

  /** The older entries, and each operation with the status its own calls gave it; one that
      completed and can be compensated is rolled back if `turned`. */
  ghost predicate LogMeans(log: seq<Entry>, log': seq<Entry>, ops: seq<Entry>, handlers: set<string>, compensators: set<string>,
                           maxRetries: int, attempts: nat -> nat -> Attempt, cancelled: nat -> nat -> bool, turned: bool) {
    && |log'| == |log| + |ops|
    && (forall i: nat :: i < |log| ==> log'[i] == log[i])
    && forall k: nat :: k < |ops| ==>
         var status := LeftStatus(ops[k].kind in handlers, maxRetries, attempts(k), cancelled(k));
         log'[|log| + k] == ops[k].(status := if turned && status.Completed? && ops[k].kind in compensators then RolledBack else status)
  }

  lemma LeftMeans(log: seq<Entry>, log': seq<Entry>, ops: seq<Entry>, handlers: set<string>, compensators: set<string>,
                  maxRetries: int, attempts: nat -> nat -> Attempt, cancelled: nat -> nat -> bool, turned: bool)
    requires BatchLeft(log, log', ops, Endings(ops, handlers, maxRetries, attempts, cancelled), compensators, turned)
    ensures LogMeans(log, log', ops, handlers, compensators, maxRetries, attempts, cancelled, turned)
  {
    var endings := Endings(ops, handlers, maxRetries, attempts, cancelled);
    forall k: nat | k < |ops|
      ensures var status := LeftStatus(ops[k].kind in handlers, maxRetries, attempts(k), cancelled(k));
        log'[|log| + k] == ops[k].(status := if turned && status.Completed? && ops[k].kind in compensators then RolledBack else status) {
      EndingMeans(ops, handlers, maxRetries, attempts, cancelled, k);
      assert log'[|log| + k] == LeftAs(ops[k], endings[k], compensators, turned);
    }
  }

  /** The batch on the calls of its handlers: an error is reported exactly when some
      operation has no handler or had calls of its own and none succeeded; and every copy
      in the log has the status its own operation's calls gave it, before compensation and
      after a successful one. */
  lemma BatchMeans(log: seq<Entry>, ops: seq<Entry>, batch: string, handlers: set<string>, maxRetries: int,
                   attempts: nat -> nat -> Attempt, cancelled: nat -> nat -> bool,
                   numbering: seq<string>, ranging: seq<string>, finishing: seq<nat>,
                   compensators: set<string>, outcomes: nat -> bool)
    requires NewBatch(log, ops, batch)
    requires Enumerates(numbering, T.GraphOf(Nodes(ops)).Keys) && Enumerates(ranging, T.GraphOf(Nodes(ops)).Keys)
    requires Reorders(finishing, LaunchOrder(ops, numbering, ranging))
    ensures Within(finishing, |ops|)
    ensures var endings := Endings(ops, handlers, maxRetries, attempts, cancelled);
      var ran := AfterRuns(log + PendingCopies(ops), Ids(ops), endings, finishing);
      var r := CompensateBatch(ran, batch, compensators, outcomes);
      && (SomeFailed(endings, finishing) <==> BatchErrs(ops, handlers, maxRetries, attempts, cancelled))
      && LogMeans(log, ran, ops, handlers, compensators, maxRetries, attempts, cancelled, false)
      && (r.ok ==> LogMeans(log, r.log, ops, handlers, compensators, maxRetries, attempts, cancelled, true))
  {
    var endings := Endings(ops, handlers, maxRetries, attempts, cancelled);
    SortedBatchIsAllOrNothing(log, ops, batch, endings, numbering, ranging, finishing, compensators, outcomes);
    var ran := AfterRuns(log + PendingCopies(ops), Ids(ops), endings, finishing);
    var r := CompensateBatch(ran, batch, compensators, outcomes);
    forall k: nat | k < |ops|
      ensures endings[k].failed
         <==> ops[k].kind !in handlers || (maxRetries >= 1 && !Succeeds(attempts(k), cancelled(k), maxRetries)) {
      EndingMeans(ops, handlers, maxRetries, attempts, cancelled, k);
    }
    LeftMeans(log, ran, ops, handlers, compensators, maxRetries, attempts, cancelled, false);
    if r.ok {
      LeftMeans(log, r.log, ops, handlers, compensators, maxRetries, attempts, cancelled, true);
    }
  }
}
