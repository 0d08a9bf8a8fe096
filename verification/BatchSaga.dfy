/** Partial-failure recovery of a batch: the in-memory transaction log, the retry loop of
    one operation, and the compensation of completed operations in reverse log order.
    Handlers are oracles: a function says how each call ends. */
module BatchSaga {
  import opened Wrappers
  import opened Collections
  import opened DependencyGraph
  import T = TopologicalSort

  datatype Status = Pending | Running | PartiallyCompleted | Completed | Failed | RollingBack | RolledBack | Compensating

  /** A logged copy of an operation.  `batch` is the batch identifier in its data, if any. */
  datatype Entry = Entry(id: string, kind: string, batch: Option<string>, dependencies: seq<string>, status: Status)

  // ------------------------------------------------------------ the log, as a value

  /** No later copy was logged under the same identifier. */
  ghost predicate IsLatest(log: seq<Entry>, i: nat)
    requires i < |log|
  {
    forall j :: i < j < |log| ==> log[j].id != log[i].id
  }

  ghost function Updated(log: seq<Entry>, i: nat, id: string, status: Status): Entry
    requires i < |log|
  {
    if log[i].id == id && IsLatest(log, i) then log[i].(status := status) else log[i]
  }

  /** An update by identifier reaches only the latest copy. */
  ghost function SetStatus(log: seq<Entry>, id: string, status: Status): (log': seq<Entry>)
    ensures |log'| == |log| && forall i :: 0 <= i < |log| ==> log'[i] == Updated(log, i, id, status)
  {
    seq(|log|, i requires 0 <= i < |log| => Updated(log, i, id, status))
  }

  ghost predicate Mentions(log: seq<Entry>, id: string) {
    exists i :: 0 <= i < |log| && log[i].id == id
  }

  function OfBatch(log: seq<Entry>, batch: string): seq<Entry>
    decreases |log|
  {
    if log == [] then []
    else
      var last := log[|log| - 1];
      OfBatch(log[..|log| - 1], batch) + if last.batch == Some(batch) then [last] else []
  }

  // ----------------------------------------------------------- the log, with records

  class OperationRecord {
    const id: string
    const kind: string
    const batch: Option<string>
    const dependencies: seq<string>
    var status: Status

    constructor (op: Entry)
      ensures Value() == op
    {
      id := op.id;
      kind := op.kind;
      batch := op.batch;
      dependencies := op.dependencies;
      status := op.status;
    }

    function Value(): Entry
      reads this
    {
      Entry(id, kind, batch, dependencies, status)
    }
  }

  function Records(log: seq<OperationRecord>, batch: string): seq<OperationRecord>
    decreases |log|
  {
    if log == [] then []
    else
      var last := log[|log| - 1];
      Records(log[..|log| - 1], batch) + if last.batch == Some(batch) then [last] else []
  }

  /** `values` is what the records hold now. */
  ghost predicate Hold(records: seq<OperationRecord>, values: seq<Entry>)
    reads records
  {
    |records| == |values| && forall i :: 0 <= i < |records| ==> records[i].Value() == values[i]
  }

  lemma {:induction false} HoldOfBatch(log: seq<OperationRecord>, contents: seq<Entry>, batch: string)
    requires Hold(log, contents)
    ensures Hold(Records(log, batch), OfBatch(contents, batch))
    decreases |log|
  {
    if log != [] {
      HoldOfBatch(log[..|log| - 1], contents[..|log| - 1], batch);
    }
  }

  ghost predicate IsLast(log: seq<OperationRecord>, i: nat)
    requires i < |log|
  {
    forall j :: i < j < |log| ==> log[j].id != log[i].id
  }

  /** An identifier leads to the latest copy logged under it. */
  ghost predicate IndexIs(operations: map<string, OperationRecord>, log: seq<OperationRecord>, i: nat)
    requires i < |log|
  {
    log[i].id in operations && (operations[log[i].id] == log[i] <==> IsLast(log, i))
  }

  ghost predicate Indexed(operations: map<string, OperationRecord>, log: seq<OperationRecord>) {
    && (forall id :: id in operations ==> operations[id].id == id && operations[id] in log)
    && (forall i: nat :: i < |log| ==> IndexIs(operations, log, i))
  }

  /** A batch leads to its copies in log order. */
  ghost predicate GroupIs(batches: map<string, seq<OperationRecord>>, log: seq<OperationRecord>, b: string) {
    Records(log, b) == if b in batches then batches[b] else []
  }

  ghost predicate Grouped(batches: map<string, seq<OperationRecord>>, log: seq<OperationRecord>) {
    forall b: string :: GroupIs(batches, log, b)
  }

  lemma IndexedGrows(operations: map<string, OperationRecord>, log: seq<OperationRecord>, record: OperationRecord)
    requires Indexed(operations, log) && record !in log
    ensures Indexed(operations[record.id := record], log + [record])
  {
    var longer, updated := log + [record], operations[record.id := record];
    forall i: nat | i < |longer| ensures IndexIs(updated, longer, i) {
      if i < |log| {
        assert IndexIs(operations, log, i);
        assert longer[i] == log[i] && longer[i] in log;
        assert longer[|log|] == record;
        assert forall j :: i < j < |log| ==> longer[j] == log[j];
        assert IsLast(longer, i) <==> IsLast(log, i) && log[i].id != record.id;
      }
    }
  }

  /** What an update by identifier finds, in terms of the values held. */
  lemma IndexFinds(operations: map<string, OperationRecord>, log: seq<OperationRecord>, contents: seq<Entry>, id: string)
    requires Indexed(operations, log) && Hold(log, contents)
    ensures id in operations <==> Mentions(contents, id)
    ensures forall i: nat :: i < |log| ==> (contents[i].id == id && IsLatest(contents, i) <==> id in operations && operations[id] == log[i])
  {
    assert forall i :: 0 <= i < |log| ==> log[i].Value() == contents[i];
    forall i: nat | i < |log| ensures contents[i].id == id && IsLatest(contents, i) <==> id in operations && operations[id] == log[i] {
      assert IndexIs(operations, log, i);
      assert IsLatest(contents, i) <==> IsLast(log, i);
    }
    if Mentions(contents, id) {
      var i :| 0 <= i < |contents| && contents[i].id == id;
      assert IndexIs(operations, log, i);
    }
  }

  function WithRecord(batches: map<string, seq<OperationRecord>>, record: OperationRecord): map<string, seq<OperationRecord>> {
    if record.batch.None? then batches
    else
      var b := record.batch.value;
      batches[b := (if b in batches then batches[b] else []) + [record]]
  }

  lemma GroupedGrows(batches: map<string, seq<OperationRecord>>, log: seq<OperationRecord>, record: OperationRecord)
    requires Grouped(batches, log)
    ensures Grouped(WithRecord(batches, record), log + [record])
  {
    assert (log + [record])[..|log|] == log;
    forall b: string ensures GroupIs(WithRecord(batches, record), log + [record], b) {
      assert GroupIs(batches, log, b);
    }
  }

  class TransactionLog {
    var operations: map<string, OperationRecord>
    var batchOperations: map<string, seq<OperationRecord>>
    ghost var log: seq<OperationRecord>
    ghost var contents: seq<Entry>

    ghost predicate Valid()
      reads this, log
    {
      Hold(log, contents) && Distinct(log) && Indexed(operations, log) && Grouped(batchOperations, log)
    }

    constructor ()
      ensures Valid() && contents == []
    {
      operations := map[];
      batchOperations := map[];
      log, contents := [], [];
    }

    method LogOperation(op: Entry) returns (ghost copy: OperationRecord)
      requires Valid()
      modifies this
      ensures Valid() && contents == old(contents) + [op]
      ensures log == old(log) + [copy] && fresh(copy)
    {
      var record := new OperationRecord(op);
      IndexedGrows(operations, log, record);
      GroupedGrows(batchOperations, log, record);
      operations := operations[op.id := record];
      batchOperations := WithRecord(batchOperations, record);
      log := log + [record];
      contents := contents + [op];
      copy := record;
    }

    method UpdateOperation(id: string, status: Status) returns (ok: bool)
      requires Valid()
      modifies `contents, log
      ensures Valid() && ok == Mentions(old(contents), id)
      ensures contents == SetStatus(old(contents), id, status)
    {
      IndexFinds(operations, log, contents, id);
      if id in operations {
        operations[id].status := status;
      }
      contents := SetStatus(contents, id, status);
      return id in operations;
    }

    /** The caller gets copies. */
    method GetOperationsByBatch(batch: string) returns (ops: seq<Entry>)
      requires Valid()
      ensures ops == OfBatch(contents, batch)
    {
      HoldOfBatch(log, contents, batch);
      assert GroupIs(batchOperations, log, batch);
      ops := [];
      if batch in batchOperations {
        var records := batchOperations[batch];
        for i := 0 to |records|
          invariant |ops| == i && forall k :: 0 <= k < i ==> ops[k] == records[k].Value()
        {
          ops := ops + [records[i].Value()];
        }
      }
    }
  }

  // ------------------------------------------------- compensation, as a specification

  /** The completed copies among `ops`, last first. */
  function CompletedReversed(ops: seq<Entry>): seq<Entry>
    decreases |ops|
  {
    if ops == [] then []
    else
      var last := ops[|ops| - 1];
      (if last.status.Completed? then [last] else []) + CompletedReversed(ops[..|ops| - 1])
  }

  datatype Outcome = Outcome(log: seq<Entry>, called: seq<Entry>, ok: bool)

  /** `outcomes(n)` says whether the handler call numbered `n` succeeds. */
  ghost function Compensate(log: seq<Entry>, todo: seq<Entry>, handlers: set<string>,
                            outcomes: nat -> bool, calls: nat): Outcome
    decreases |todo|
  {
    if todo == [] then Outcome(log, [], true)
    else if todo[0].kind !in handlers then Compensate(log, todo[1..], handlers, outcomes, calls)
    else if outcomes(calls) then
      var rest := Compensate(SetStatus(log, todo[0].id, RolledBack), todo[1..], handlers, outcomes, calls + 1);
      rest.(called := [todo[0]] + rest.called)
    else Outcome(SetStatus(log, todo[0].id, Failed), [todo[0]], false)
  }

  ghost function CompensateBatch(log: seq<Entry>, batch: string, handlers: set<string>, outcomes: nat -> bool): Outcome {
    Compensate(log, CompletedReversed(OfBatch(log, batch)), handlers, outcomes, 0)
  }

  lemma SetStatusKeepsLatest(log: seq<Entry>, id: string, status: Status, i: nat)
    requires i < |log|
    ensures IsLatest(SetStatus(log, id, status), i) <==> IsLatest(log, i)
  {
    var log' := SetStatus(log, id, status);
    assert forall j :: 0 <= j < |log| ==> log'[j].id == log[j].id;
  }

  lemma SetStatusTwice(log: seq<Entry>, id: string, first: Status, second: Status)
    ensures SetStatus(SetStatus(log, id, first), id, second) == SetStatus(log, id, second)
  {
    forall i: nat | i < |log|
      ensures SetStatus(SetStatus(log, id, first), id, second)[i] == SetStatus(log, id, second)[i] {
      SetStatusKeepsLatest(log, id, first, i);
    }
  }

  lemma SetStatusKeepsMentions(log: seq<Entry>, id: string, status: Status, other: string)
    ensures Mentions(SetStatus(log, id, status), other) <==> Mentions(log, other)
  {
    var log' := SetStatus(log, id, status);
    assert forall i :: 0 <= i < |log| ==> log'[i].id == log[i].id;
  }

  lemma UnmentionedUnchanged(log: seq<Entry>, id: string, status: Status)
    requires !Mentions(log, id)
    ensures SetStatus(log, id, status) == log
  {
    assert forall i :: 0 <= i < |log| ==> log[i].id != id;
  }

  lemma {:induction false} OfBatchMembers(log: seq<Entry>, batch: string)
    ensures forall op :: op in OfBatch(log, batch) ==> op in log && Mentions(log, op.id)
    decreases |log|
  {
    if log != [] {
      OfBatchMembers(log[..|log| - 1], batch);
      forall op | op in OfBatch(log, batch) ensures op in log && Mentions(log, op.id) {
        var i :| 0 <= i < |log| && log[i] == op;
      }
    }
  }

  lemma {:induction false} CompletedMembers(ops: seq<Entry>)
    ensures forall op :: op in CompletedReversed(ops) ==> op in ops
    decreases |ops|
  {
    if ops != [] {
      CompletedMembers(ops[..|ops| - 1]);
    }
  }

  ghost predicate Gathered(ops: seq<Entry>, i: nat, todo: seq<Entry>)
    requires i <= |ops|
  {
    todo + CompletedReversed(ops[..i]) == CompletedReversed(ops)
  }

  lemma GatheredAll(ops: seq<Entry>)
    ensures Gathered(ops, |ops|, [])
    ensures forall todo :: Gathered(ops, 0, todo) ==> todo == CompletedReversed(ops)
  {
    assert ops[..|ops|] == ops && ops[..0] == [];
    assert forall todo: seq<Entry> :: todo + [] == todo;
  }

  lemma GatheredStep(ops: seq<Entry>, i: nat, todo: seq<Entry>)
    requires 0 < i <= |ops| && Gathered(ops, i, todo)
    ensures Gathered(ops, i - 1, if ops[i - 1].status.Completed? then todo + [ops[i - 1]] else todo)
  {
    var rest := CompletedReversed(ops[..i - 1]);
    assert ops[..i][..i - 1] == ops[..i - 1];
    assert todo + ([ops[i - 1]] + rest) == todo + [ops[i - 1]] + rest;
  }

  /** Every operation that compensation may touch is in the log. */
  ghost predicate AllMentioned(log: seq<Entry>, ops: seq<Entry>) {
    forall op :: op in ops ==> Mentions(log, op.id)
  }

  lemma TodoIsMentioned(log: seq<Entry>, batch: string)
    ensures AllMentioned(log, CompletedReversed(OfBatch(log, batch)))
  {
    OfBatchMembers(log, batch);
    CompletedMembers(OfBatch(log, batch));
  }

  lemma SetStatusKeepsAllMentioned(log: seq<Entry>, id: string, status: Status, ops: seq<Entry>)
    requires AllMentioned(log, ops)
    ensures AllMentioned(SetStatus(log, id, status), ops)
  {
    forall op | op in ops ensures Mentions(SetStatus(log, id, status), op.id) {
      SetStatusKeepsMentions(log, id, status, op.id);
    }
  }

  // ------------------------------------------------------ execution, as a specification

  /** How one call of an operation's handler ends: an error is retryable or it is not. */
  datatype Attempt = Success | Transient | Permanent

  /** `logged` is false when the function returns before its last log update. */
  datatype Ending = Ending(calls: nat, status: Status, logged: bool, failed: bool)

  /** From attempt `n` on; `cancelled(n)` says the wait after it is cut short. */
  function Tries(attempts: nat -> Attempt, cancelled: nat -> bool, maxRetries: nat, n: nat): Ending
    requires 1 <= n <= maxRetries
    decreases maxRetries - n
  {
    match attempts(n)
    case Success => Ending(n, Completed, true, false)
    case Permanent => Ending(n, Failed, true, true)
    case Transient =>
      if n == maxRetries then Ending(n, Failed, true, true)
      else if cancelled(n) then Ending(n, Running, false, true)
      else Tries(attempts, cancelled, maxRetries, n + 1)
  }

  function Executed(handled: bool, maxRetries: int, start: Status, attempts: nat -> Attempt, cancelled: nat -> bool): Ending {
    if !handled then Ending(0, start, false, true)
    else if maxRetries < 1 then Ending(0, start, true, false)
    else Tries(attempts, cancelled, maxRetries, 1)
  }

  /** Attempt `n` is the first that succeeds, and all before it may be retried. */
  ghost predicate FirstSuccess(attempts: nat -> Attempt, cancelled: nat -> bool, maxRetries: int, n: nat) {
    && 1 <= n <= maxRetries && attempts(n).Success?
    && forall k: nat :: 1 <= k < n ==> attempts(k).Transient? && !cancelled(k)
  }

  lemma {:induction false} TriesExactly(attempts: nat -> Attempt, cancelled: nat -> bool, maxRetries: nat, n: nat)
    requires 1 <= n <= maxRetries
    ensures var e := Tries(attempts, cancelled, maxRetries, n);
      && n <= e.calls <= maxRetries
      && (forall k: nat :: n <= k < e.calls ==> attempts(k).Transient? && !cancelled(k))
      && (e.status.Completed? <==> attempts(e.calls).Success?)
      && (e.failed <==> !e.status.Completed?)
      && (e.status.Failed? <==> attempts(e.calls).Permanent? || (attempts(e.calls).Transient? && e.calls == maxRetries))
      && (e.logged <==> e.status.Completed? || e.status.Failed?)
      && (!e.logged ==> attempts(e.calls).Transient? && cancelled(e.calls) && e.calls < maxRetries && e.status.Running?)
    decreases maxRetries - n
  {
    if attempts(n).Transient? && n < maxRetries && !cancelled(n) {
      TriesExactly(attempts, cancelled, maxRetries, n + 1);
    }
  }

  lemma NotLoggedIsFailed(maxRetries: int, start: Status, attempts: nat -> Attempt, cancelled: nat -> bool)
    ensures var e := Executed(true, maxRetries, start, attempts, cancelled); !e.logged ==> e.failed
  {
    if maxRetries >= 1 {
      TriesExactly(attempts, cancelled, maxRetries, 1);
    }
  }

  /** An operation that has a handler makes at most `maxRetries` calls and is logged as
      completed exactly when some call succeeds after nothing but retryable failures.  With
      `maxRetries` below one it is never called, and yet reported as a success. */
  lemma CompletedIff(maxRetries: int, start: Status, attempts: nat -> Attempt, cancelled: nat -> bool)
    ensures var e := Executed(true, maxRetries, start, attempts, cancelled);
      && e.calls <= (if maxRetries < 0 then 0 else maxRetries)
      && (maxRetries >= 1 ==> (e.logged && e.status.Completed? <==> exists n :: FirstSuccess(attempts, cancelled, maxRetries, n)))
      && (!e.failed <==> maxRetries < 1 || exists n :: FirstSuccess(attempts, cancelled, maxRetries, n))
      && (maxRetries < 1 ==> e == Ending(0, start, true, false))
  {
    if maxRetries >= 1 {
      TriesExactly(attempts, cancelled, maxRetries, 1);
      var e := Tries(attempts, cancelled, maxRetries, 1);
      if e.status.Completed? {
        assert FirstSuccess(attempts, cancelled, maxRetries, e.calls);
      }
      forall n | FirstSuccess(attempts, cancelled, maxRetries, n) ensures e.calls == n {
        assert e.calls < n ==> attempts(e.calls).Transient? && !cancelled(e.calls);
      }
    }
  }

  // ------------------------------------------------------- a batch, as a specification

  ghost predicate Within(places: seq<nat>, n: nat) {
    forall k :: 0 <= k < |places| ==> places[k] < n
  }

  /** The log after the operations `ids` ended as `endings` says, in the order `order`:
      each goroutine's last update, in whatever order the goroutines finish. */
  ghost function AfterRuns(log: seq<Entry>, ids: seq<string>, endings: seq<Ending>, order: seq<nat>): seq<Entry>
    requires |ids| == |endings| && Within(order, |ids|)
    decreases |order|
  {
    if order == [] then log
    else
      var e := endings[order[0]];
      AfterRuns(LogAfter(log, ids[order[0]], false, e), ids, endings, order[1..])
  }

  function Nodes(ops: seq<Entry>): (nodes: seq<T.Operation>)
    ensures |nodes| == |ops|
    ensures forall i :: 0 <= i < |ops| ==> nodes[i] == T.Operation(ops[i].id, ops[i].dependencies)
  {
    seq(|ops|, i requires 0 <= i < |ops| => T.Operation(ops[i].id, ops[i].dependencies))
  }

  /** The places of the slice that the executor launches, in order. */
  ghost function LaunchOrder(ops: seq<Entry>, numbering: seq<string>, ranging: seq<string>): (order: seq<nat>)
    requires Enumerates(numbering, T.GraphOf(Nodes(ops)).Keys) && Enumerates(ranging, T.GraphOf(Nodes(ops)).Keys)
    ensures Within(order, |ops|)
  {
    var g := T.GraphOf(Nodes(ops));
    T.SortedIndicesCover(g, numbering, ranging);
    T.GraphSize(Nodes(ops));
    WithinCover(T.SortedIndices(g, numbering, ranging), |g|, |ops|);
    T.SortedIndices(g, numbering, ranging)
  }

  lemma WithinCover(order: seq<nat>, m: nat, n: nat)
    requires T.Covers(order, m) && m <= n
    ensures Within(order, n)
  {
    forall k | 0 <= k < |order| ensures order[k] < n {
      assert order[k] in order;
    }
  }

  /** The goroutines finish in any order, whatever order they were started in. */
  ghost predicate Reorders(finishing: seq<nat>, launched: seq<nat>) {
    multiset(finishing) == multiset(launched)
  }

  lemma ReorderedWithin(finishing: seq<nat>, launched: seq<nat>, n: nat)
    requires Reorders(finishing, launched) && Within(launched, n)
    ensures Within(finishing, n)
  {
    forall k | 0 <= k < |finishing| ensures finishing[k] < n {
      assert finishing[k] in multiset(finishing);
      assert finishing[k] in launched;
    }
  }

  ghost predicate SomeFailed(endings: seq<Ending>, order: seq<nat>)
    requires Within(order, |endings|)
  {
    exists k :: 0 <= k < |order| && endings[order[k]].failed
  }

  function PendingCopies(ops: seq<Entry>): (copies: seq<Entry>)
    ensures |copies| == |ops| && forall i :: 0 <= i < |ops| ==> copies[i] == ops[i].(status := Pending)
  {
    seq(|ops|, i requires 0 <= i < |ops| => ops[i].(status := Pending))
  }

  function Ids(ops: seq<Entry>): (ids: seq<string>)
    ensures |ids| == |ops| && forall i :: 0 <= i < |ops| ==> ids[i] == ops[i].id
  {
    seq(|ops|, i requires 0 <= i < |ops| => ops[i].id)
  }

  /** The log after one operation's run: `resumed` marked it as running first. */
  ghost function LogAfter(log: seq<Entry>, id: string, resumed: bool, e: Ending): seq<Entry> {
    if e.logged then SetStatus(log, id, e.status)
    else if resumed then SetStatus(log, id, Running)
    else log
  }

  function EndingOf(ops: seq<Entry>, k: nat, handlers: set<string>, maxRetries: int,
                    attempts: nat -> nat -> Attempt, cancelled: nat -> nat -> bool): Ending
    requires k < |ops|
  {
    Executed(ops[k].kind in handlers, maxRetries, Pending, attempts(k), cancelled(k))
  }

  /** How the run of each operation of a batch ends. */
  function Endings(ops: seq<Entry>, handlers: set<string>, maxRetries: int,
                   attempts: nat -> nat -> Attempt, cancelled: nat -> nat -> bool): (endings: seq<Ending>)
    ensures |endings| == |ops|
    ensures forall k :: 0 <= k < |ops| ==> endings[k] == EndingOf(ops, k, handlers, maxRetries, attempts, cancelled)
  {
    seq(|ops|, k requires 0 <= k < |ops| => EndingOf(ops, k, handlers, maxRetries, attempts, cancelled))
  }

  /** Some call succeeds after nothing but failures that are retried. */
  ghost predicate Succeeds(attempts: nat -> Attempt, cancelled: nat -> bool, maxRetries: int) {
    exists n: nat :: FirstSuccess(attempts, cancelled, maxRetries, n)
  }

  /** Call `n` is the last: its error is permanent, or no retry is left. */
  ghost predicate LastFailure(attempts: nat -> Attempt, cancelled: nat -> bool, maxRetries: int, n: nat) {
    && 1 <= n <= maxRetries && (attempts(n).Permanent? || (attempts(n).Transient? && n == maxRetries))
    && forall k: nat :: 1 <= k < n ==> attempts(k).Transient? && !cancelled(k)
  }

  ghost predicate GivesUp(attempts: nat -> Attempt, cancelled: nat -> bool, maxRetries: int) {
    exists n: nat :: LastFailure(attempts, cancelled, maxRetries, n)
  }

  /** The operation has no handler, or its calls were made and none succeeded. */
  ghost predicate Errs(handled: bool, maxRetries: int, attempts: nat -> Attempt, cancelled: nat -> bool) {
    !handled || (maxRetries >= 1 && !Succeeds(attempts, cancelled, maxRetries))
  }

  /** The status of an operation's copy after its run: an operation without a handler, one
      that is never called and one whose wait was cut short are left as they were logged. */
  ghost function LeftStatus(handled: bool, maxRetries: int, attempts: nat -> Attempt, cancelled: nat -> bool): Status {
    if handled && Succeeds(attempts, cancelled, maxRetries) then Completed
    else if handled && GivesUp(attempts, cancelled, maxRetries) then Failed
    else Pending
  }

  lemma TriesMeans(maxRetries: int, attempts: nat -> Attempt, cancelled: nat -> bool)
    requires maxRetries >= 1
    ensures var e := Tries(attempts, cancelled, maxRetries, 1);
      && (e.status.Completed? <==> Succeeds(attempts, cancelled, maxRetries))
      && (e.status.Failed? <==> GivesUp(attempts, cancelled, maxRetries))
  {
    TriesExactly(attempts, cancelled, maxRetries, 1);
    var e := Tries(attempts, cancelled, maxRetries, 1);
    assert e.status.Completed? ==> FirstSuccess(attempts, cancelled, maxRetries, e.calls);
    assert e.status.Failed? ==> LastFailure(attempts, cancelled, maxRetries, e.calls);
    forall n: nat | FirstSuccess(attempts, cancelled, maxRetries, n) || LastFailure(attempts, cancelled, maxRetries, n)
      ensures e.calls == n {
      assert e.calls < n ==> attempts(e.calls).Transient? && !cancelled(e.calls);
      assert n < e.calls ==> attempts(n).Transient? && !cancelled(n);
    }
  }

  /** What each operation's own handler and own calls mean for its run in a batch. */
  lemma EndingMeans(ops: seq<Entry>, handlers: set<string>, maxRetries: int,
                    attempts: nat -> nat -> Attempt, cancelled: nat -> nat -> bool, k: nat)
    requires k < |ops|
    ensures var e, handled := Endings(ops, handlers, maxRetries, attempts, cancelled)[k], ops[k].kind in handlers;
      && (e.failed <==> Errs(handled, maxRetries, attempts(k), cancelled(k)))
      && (if e.logged then e.status else Pending) == LeftStatus(handled, maxRetries, attempts(k), cancelled(k))
  {
    if maxRetries >= 1 {
      TriesMeans(maxRetries, attempts(k), cancelled(k));
      TriesExactly(attempts(k), cancelled(k), maxRetries, 1);
    }
  }

  /** One run on the log: the latest copy ends with the status that the calls gave it.  A run
      whose wait is cut short, or that found no handler, leaves the copy as it was, or as
      running if a checkpoint had marked it. */
  lemma RunLeaves(log: seq<Entry>, i: nat, resumed: bool, handled: bool, maxRetries: int, start: Status,
                  attempts: nat -> Attempt, cancelled: nat -> bool)
    requires i < |log| && IsLatest(log, i) && (handled ==> maxRetries >= 1)
    ensures var left := LogAfter(log, log[i].id, resumed, Executed(handled, maxRetries, start, attempts, cancelled))[i].status;
      left == if handled && Succeeds(attempts, cancelled, maxRetries) then Completed
              else if handled && GivesUp(attempts, cancelled, maxRetries) then Failed
              else if resumed then Running else log[i].status
  {
    if handled {
      TriesMeans(maxRetries, attempts, cancelled);
      TriesExactly(attempts, cancelled, maxRetries, 1);
    }
  }

  /** Some operation of those that ran has no handler, or had calls and none succeeded. */
  ghost predicate SomeErrs(ops: seq<Entry>, order: seq<nat>, handlers: set<string>, maxRetries: int,
                           attempts: nat -> nat -> Attempt, cancelled: nat -> nat -> bool)
    requires Within(order, |ops|)
  {
    exists i :: 0 <= i < |order| && var k := order[i]; Errs(ops[k].kind in handlers, maxRetries, attempts(k), cancelled(k))
  }

  lemma SomeFailedIff(ops: seq<Entry>, order: seq<nat>, handlers: set<string>, maxRetries: int,
                      attempts: nat -> nat -> Attempt, cancelled: nat -> nat -> bool)
    requires Within(order, |ops|)
    ensures SomeFailed(Endings(ops, handlers, maxRetries, attempts, cancelled), order)
       <==> SomeErrs(ops, order, handlers, maxRetries, attempts, cancelled)
  {
    var endings := Endings(ops, handlers, maxRetries, attempts, cancelled);
    forall i | 0 <= i < |order|
      ensures endings[order[i]].failed
         <==> Errs(ops[order[i]].kind in handlers, maxRetries, attempts(order[i]), cancelled(order[i])) {
      EndingMeans(ops, handlers, maxRetries, attempts, cancelled, order[i]);
    }
  }

  // -------------------------------------------------------------------- implementation

  class RecoveryManager {
    const transactionLog: TransactionLog
    const maxRetries: int
    var operationHandlers: set<string>
    var compensationHandlers: set<string>

    constructor (log: TransactionLog, maxRetries: int)
      ensures transactionLog == log && this.maxRetries == maxRetries
      ensures operationHandlers == {} && compensationHandlers == {}
    {
      transactionLog := log;
      this.maxRetries := maxRetries;
      operationHandlers, compensationHandlers := {}, {};
    }

    method TryRepeatedly(start: Status, attempts: nat -> Attempt, cancelled: nat -> bool) returns (ending: Ending)
      ensures ending == Executed(true, maxRetries, start, attempts, cancelled)
    {
      ending := Ending(0, start, true, false);
      var attempt := 1;
      while attempt <= maxRetries
        invariant 1 <= attempt && ending.calls == attempt - 1
        invariant attempt > maxRetries ==> attempt == 1 && ending == Ending(0, start, true, false)
        invariant attempt <= maxRetries ==>
          Executed(true, maxRetries, start, attempts, cancelled) == Tries(attempts, cancelled, maxRetries, attempt)
      {
        ending := Ending(attempt, Running, false, true);
        var outcome := attempts(attempt);
        if outcome == Success {
          return Ending(attempt, Completed, true, false);
        }
        if outcome != Transient || attempt == maxRetries {
          return Ending(attempt, Failed, true, true);
        }
        if cancelled(attempt) {
          return ending;
        }
        attempt := attempt + 1;
      }
    }

    /** `checkpoint` says that the progress reporter has one to resume from.  An operation
        that was never logged runs all the same, and then counts as failed. */
    method ExecuteOperationWithRecovery(op: Entry, checkpoint: bool, attempts: nat -> Attempt, cancelled: nat -> bool)
      returns (ending: Ending)
      requires transactionLog.Valid()
      modifies transactionLog`contents, transactionLog.log
      ensures transactionLog.Valid()
      ensures Mentions(old(transactionLog.contents), op.id) ==>
        var resumed := checkpoint && op.kind in operationHandlers;
        && ending == Executed(op.kind in operationHandlers, maxRetries, if resumed then Running else op.status, attempts, cancelled)
        && transactionLog.contents == LogAfter(old(transactionLog.contents), op.id, resumed, ending)
      ensures !Mentions(old(transactionLog.contents), op.id) ==>
        ending.failed && transactionLog.contents == old(transactionLog.contents)
    {
      if op.kind !in operationHandlers {
        return Ending(0, op.status, false, true);
      }
      if checkpoint {
        var marked := transactionLog.UpdateOperation(op.id, Running);
        if !marked {
          UnmentionedUnchanged(old(transactionLog.contents), op.id, Running);
          return Ending(0, Running, false, true);
        }
      }
      ending := TryRepeatedly(if checkpoint then Running else op.status, attempts, cancelled);
      NotLoggedIsFailed(maxRetries, if checkpoint then Running else op.status, attempts, cancelled);
      if ending.logged {
        SetStatusTwice(old(transactionLog.contents), op.id, Running, ending.status);
        SetStatusKeepsMentions(old(transactionLog.contents), op.id, Running, op.id);
        var updated := transactionLog.UpdateOperation(op.id, ending.status);
        if !updated {
          UnmentionedUnchanged(old(transactionLog.contents), op.id, ending.status);
          ending := ending.(failed := true);
        }
      }
    }

    /** The handler is not called for an operation that was never logged. */
    method CompensateOperation(op: Entry, outcome: bool) returns (ok: bool, called: bool)
      requires transactionLog.Valid()
      modifies transactionLog`contents, transactionLog.log
      ensures transactionLog.Valid()
      ensures called == (op.kind in compensationHandlers && Mentions(old(transactionLog.contents), op.id))
      ensures ok == (op.kind in compensationHandlers ==> called && outcome)
      ensures !called ==> transactionLog.contents == old(transactionLog.contents)
      ensures called ==>
        transactionLog.contents == SetStatus(old(transactionLog.contents), op.id, if ok then RolledBack else Failed)
    {
      ghost var log := transactionLog.contents;
      if op.kind !in compensationHandlers {
        return true, false;
      }
      var marked := transactionLog.UpdateOperation(op.id, Compensating);
      if !marked {
        UnmentionedUnchanged(log, op.id, Compensating);
        return false, false;
      }
      SetStatusKeepsMentions(log, op.id, Compensating, op.id);
      SetStatusTwice(log, op.id, Compensating, if outcome then RolledBack else Failed);
      if !outcome {
        var _ := transactionLog.UpdateOperation(op.id, Failed);
        return false, true;
      }
      ok := transactionLog.UpdateOperation(op.id, RolledBack);
      called := true;
    }

    static method CompletedInReverse(operations: seq<Entry>) returns (todo: seq<Entry>)
      ensures todo == CompletedReversed(operations)
    {
      todo := [];
      var i := |operations|;
      GatheredAll(operations);
      while i > 0
        invariant 0 <= i <= |operations| && Gathered(operations, i, todo)
      {
        GatheredStep(operations, i, todo);
        i := i - 1;
        if operations[i].status == Completed {
          todo := todo + [operations[i]];
        }
      }
    }

    method CompensateInOrder(todo: seq<Entry>, outcomes: nat -> bool) returns (ok: bool, called: seq<Entry>)
      requires transactionLog.Valid() && AllMentioned(transactionLog.contents, todo)
      modifies transactionLog`contents, transactionLog.log
      ensures transactionLog.Valid()
      ensures Outcome(transactionLog.contents, called, ok)
           == Compensate(old(transactionLog.contents), todo, compensationHandlers, outcomes, 0)
    {
      called, ok := [], true;
      ghost var whole := Compensate(transactionLog.contents, todo, compensationHandlers, outcomes, 0);
      OnCourseStart(transactionLog.contents, todo, compensationHandlers, outcomes);
      var i := 0;
      while i < |todo|
        invariant i <= |todo| && ok && transactionLog.Valid()
        invariant OnCourse(whole, called, transactionLog.contents, todo, i, compensationHandlers, outcomes)
      {
        OnCourseNext(whole, called, transactionLog.contents, todo, i, compensationHandlers, outcomes);
        var wasCalled: bool;
        ok, wasCalled := CompensateOperation(todo[i], outcomes(|called|));
        if wasCalled {
          called := called + [todo[i]];
        }
        if !ok {
          return;
        }
        i := i + 1;
      }
      OnCourseEnd(whole, called, transactionLog.contents, todo, compensationHandlers, outcomes);
    }

    method CompensateFailedOperations(batch: string, outcomes: nat -> bool) returns (ok: bool, called: seq<Entry>)
      requires transactionLog.Valid()
      modifies transactionLog`contents, transactionLog.log
      ensures transactionLog.Valid()
      ensures Outcome(transactionLog.contents, called, ok)
           == CompensateBatch(old(transactionLog.contents), batch, compensationHandlers, outcomes)
    {
      var operations := transactionLog.GetOperationsByBatch(batch);
      var todo := CompletedInReverse(operations);
      TodoIsMentioned(transactionLog.contents, batch);
      ok, called := CompensateInOrder(todo, outcomes);
    }

    method LogAll(ops: seq<Entry>)
      requires transactionLog.Valid()
      modifies transactionLog
      ensures transactionLog.Valid()
      ensures transactionLog.contents == old(transactionLog.contents) + PendingCopies(ops)
      ensures forall i :: 0 <= i < |transactionLog.log| ==> transactionLog.log[i] in old(transactionLog.log) || fresh(transactionLog.log[i])
    {
      ghost var before := transactionLog.contents;
      assert PendingCopies([]) == [];
      var i := 0;
      while i < |ops|
        invariant i <= |ops| && transactionLog.Valid()
        invariant transactionLog.contents == before + PendingCopies(ops[..i])
        invariant forall i :: 0 <= i < |transactionLog.log| ==> transactionLog.log[i] in old(transactionLog.log) || fresh(transactionLog.log[i])
      {
        PendingOneMore(before, ops, i);
        ghost var copy := transactionLog.LogOperation(ops[i].(status := Pending));
        i := i + 1;
      }
      assert ops[..i] == ops;
    }

    /** One goroutine: its operation was logged, and nobody reported a checkpoint of it. */
    method RunOne(ops: seq<Entry>, k: nat, attempts: nat -> nat -> Attempt, cancelled: nat -> nat -> bool) returns (failed: bool)
      requires transactionLog.Valid() && k < |ops| && Mentions(transactionLog.contents, ops[k].id)
      modifies transactionLog`contents, transactionLog.log
      ensures transactionLog.Valid()
      ensures var e := EndingOf(ops, k, operationHandlers, maxRetries, attempts, cancelled);
        failed == e.failed && transactionLog.contents == LogAfter(old(transactionLog.contents), ops[k].id, false, e)
    {
      var ending := ExecuteOperationWithRecovery(ops[k].(status := Pending), false, attempts(k), cancelled(k));
      failed := ending.failed;
    }

    /** Each goroutine's one update of the log comes when it finishes. */
    method RunAll(ops: seq<Entry>, launched: seq<nat>, finishing: seq<nat>,
                  attempts: nat -> nat -> Attempt, cancelled: nat -> nat -> bool)
      returns (failed: bool)
      requires transactionLog.Valid() && AllMentioned(transactionLog.contents, ops)
      requires Within(launched, |ops|) && Within(finishing, |ops|) && Reorders(finishing, launched)
      modifies transactionLog`contents, transactionLog.log
      ensures transactionLog.Valid()
      ensures var endings := Endings(ops, operationHandlers, maxRetries, attempts, cancelled);
        && transactionLog.contents == AfterRuns(old(transactionLog.contents), Ids(ops), endings, finishing)
        && failed == SomeFailed(endings, finishing)
      ensures failed == SomeErrs(ops, finishing, operationHandlers, maxRetries, attempts, cancelled)
    {
      ghost var endings := Endings(ops, operationHandlers, maxRetries, attempts, cancelled);
      ghost var all := AfterRuns(transactionLog.contents, Ids(ops), endings, finishing);
      failed := false;
      assert finishing[0..] == finishing;
      var i := 0;
      while i < |finishing|
        invariant i <= |finishing| && transactionLog.Valid()
        invariant StillToRun(all, transactionLog.contents, ops, endings, finishing, i, failed)
      {
        StillToRunNext(all, transactionLog.contents, ops, endings, finishing, i, failed);
        var oneFailed := RunOne(ops, finishing[i], attempts, cancelled);
        failed := failed || oneFailed;
        i := i + 1;
      }
      StillToRunEnd(all, transactionLog.contents, ops, endings, finishing, failed, operationHandlers, maxRetries, attempts, cancelled);
    }

    method RunSorted(ops: seq<Entry>, numbering: seq<string>, ranging: seq<string>, finishing: seq<nat>,
                     attempts: nat -> nat -> Attempt, cancelled: nat -> nat -> bool)
      returns (failed: bool)
      requires transactionLog.Valid() && AllMentioned(transactionLog.contents, ops)
      requires Enumerates(numbering, T.GraphOf(Nodes(ops)).Keys) && Enumerates(ranging, T.GraphOf(Nodes(ops)).Keys)
      requires Reorders(finishing, LaunchOrder(ops, numbering, ranging)) && Within(finishing, |ops|)
      modifies transactionLog`contents, transactionLog.log
      ensures transactionLog.Valid()
      ensures var endings := Endings(ops, operationHandlers, maxRetries, attempts, cancelled);
        && transactionLog.contents == AfterRuns(old(transactionLog.contents), Ids(ops), endings, finishing)
        && failed == SomeFailed(endings, finishing)
      ensures failed == SomeErrs(ops, finishing, operationHandlers, maxRetries, attempts, cancelled)
    {
      var graph := T.BuildDependencyGraph(Nodes(ops));
      var launched := T.Sort(graph, numbering, ranging);
      assert launched == LaunchOrder(ops, numbering, ranging);
      failed := RunAll(ops, launched, finishing, attempts, cancelled);
    }

    /** `numbering` and `ranging` are the two ranges of the dependency sort over its map;
        `finishing` is the order in which the goroutines finish. */
    method ExecuteBatchOperations(batch: string, ops: seq<Entry>, numbering: seq<string>, ranging: seq<string>, finishing: seq<nat>,
                                  attempts: nat -> nat -> Attempt, cancelled: nat -> nat -> bool, outcomes: nat -> bool)
      returns (failed: bool, compensated: bool)
      requires transactionLog.Valid()
      requires Enumerates(numbering, T.GraphOf(Nodes(ops)).Keys) && Enumerates(ranging, T.GraphOf(Nodes(ops)).Keys)
      requires Reorders(finishing, LaunchOrder(ops, numbering, ranging))
      modifies transactionLog, transactionLog.log
      ensures transactionLog.Valid() && Within(finishing, |ops|)
      ensures var endings := Endings(ops, operationHandlers, maxRetries, attempts, cancelled);
        var ran := AfterRuns(old(transactionLog.contents) + PendingCopies(ops), Ids(ops), endings, finishing);
        var r := CompensateBatch(ran, batch, compensationHandlers, outcomes);
        && failed == SomeFailed(endings, finishing)
        && transactionLog.contents == (if failed then r.log else ran)
        && compensated == (failed && r.ok)
      ensures failed == SomeErrs(ops, finishing, operationHandlers, maxRetries, attempts, cancelled)
    {
      LogAll(ops);
      LoggedAreMentioned(old(transactionLog.contents), ops);
      ReorderedWithin(finishing, LaunchOrder(ops, numbering, ranging), |ops|);
      failed := RunSorted(ops, numbering, ranging, finishing, attempts, cancelled);
      compensated := false;
      if failed {
        var called: seq<Entry>;
        compensated, called := CompensateFailedOperations(batch, outcomes);
      }
    }
  }

  lemma PendingOneMore(log: seq<Entry>, ops: seq<Entry>, i: nat)
    requires i < |ops|
    ensures log + PendingCopies(ops[..i + 1]) == log + PendingCopies(ops[..i]) + [ops[i].(status := Pending)]
  {
  }

  ghost predicate StillToRun(all: seq<Entry>, log: seq<Entry>, ops: seq<Entry>, endings: seq<Ending>, order: seq<nat>, i: nat, failed: bool)
    requires i <= |order| && |ops| == |endings| && Within(order, |ops|)
  {
    && AllMentioned(log, ops) && all == AfterRuns(log, Ids(ops), endings, order[i..])
    && failed == SomeFailed(endings, order[..i])
  }

  lemma StillToRunNext(all: seq<Entry>, log: seq<Entry>, ops: seq<Entry>, endings: seq<Ending>, order: seq<nat>, i: nat, failed: bool)
    requires i < |order| && |ops| == |endings| && Within(order, |ops|)
    requires StillToRun(all, log, ops, endings, order, i, failed)
    ensures var k, e := order[i], endings[order[i]];
      && Mentions(log, ops[k].id)
      && StillToRun(all, LogAfter(log, ops[k].id, false, e), ops, endings, order, i + 1, failed || e.failed)
  {
    var k, e := order[i], endings[order[i]];
    assert ops[k] in ops && order[i..][0] == k && order[i..][1..] == order[i + 1..];
    SetStatusKeepsAllMentioned(log, ops[k].id, e.status, ops);
    SomeFailedOneMore(endings, order, i);
  }

  lemma SomeFailedOneMore(endings: seq<Ending>, order: seq<nat>, i: nat)
    requires i < |order| && Within(order, |endings|)
    ensures SomeFailed(endings, order[..i + 1]) <==> SomeFailed(endings, order[..i]) || endings[order[i]].failed
  {
    var shorter, longer := order[..i], order[..i + 1];
    assert longer == shorter + [order[i]];
    if SomeFailed(endings, shorter) {
      var j :| 0 <= j < i && endings[shorter[j]].failed;
      assert endings[longer[j]].failed;
    }
    if endings[order[i]].failed {
      assert endings[longer[i]].failed;
    }
  }

  lemma StillToRunEnd(all: seq<Entry>, log: seq<Entry>, ops: seq<Entry>, endings: seq<Ending>, order: seq<nat>, failed: bool,
                      handlers: set<string>, maxRetries: int, attempts: nat -> nat -> Attempt, cancelled: nat -> nat -> bool)
    requires |ops| == |endings| && Within(order, |ops|) && StillToRun(all, log, ops, endings, order, |order|, failed)
    requires endings == Endings(ops, handlers, maxRetries, attempts, cancelled)
    ensures all == log && failed == SomeFailed(endings, order)
    ensures failed == SomeErrs(ops, order, handlers, maxRetries, attempts, cancelled)
  {
    assert order[..|order|] == order;
    SomeFailedIff(ops, order, handlers, maxRetries, attempts, cancelled);
  }

  lemma LoggedAreMentioned(log: seq<Entry>, ops: seq<Entry>)
    ensures AllMentioned(log + PendingCopies(ops), ops)
  {
    forall op | op in ops ensures Mentions(log + PendingCopies(ops), op.id) {
      var k :| 0 <= k < |ops| && ops[k] == op;
      assert (log + PendingCopies(ops))[|log| + k].id == op.id;
    }
  }

  /** `whole` is what was called so far followed by what `rest` calls. */
  ghost predicate Continues(whole: Outcome, called: seq<Entry>, rest: Outcome) {
    whole == Outcome(rest.log, called + rest.called, rest.ok)
  }

  ghost predicate OnCourse(whole: Outcome, called: seq<Entry>, log: seq<Entry>, todo: seq<Entry>, i: nat,
                           handlers: set<string>, outcomes: nat -> bool)
    requires i <= |todo|
  {
    && AllMentioned(log, todo)
    && Continues(whole, called, Compensate(log, todo[i..], handlers, outcomes, |called|))
  }

  lemma OnCourseStart(log: seq<Entry>, todo: seq<Entry>, handlers: set<string>, outcomes: nat -> bool)
    requires AllMentioned(log, todo)
    ensures OnCourse(Compensate(log, todo, handlers, outcomes, 0), [], log, todo, 0, handlers, outcomes)
  {
    assert todo[0..] == todo;
  }

  lemma OnCourseEnd(whole: Outcome, called: seq<Entry>, log: seq<Entry>, todo: seq<Entry>,
                    handlers: set<string>, outcomes: nat -> bool)
    requires OnCourse(whole, called, log, todo, |todo|, handlers, outcomes)
    ensures whole == Outcome(log, called, true)
  {
  }

  lemma OnCourseNext(whole: Outcome, called: seq<Entry>, log: seq<Entry>, todo: seq<Entry>, i: nat,
                     handlers: set<string>, outcomes: nat -> bool)
    requires i < |todo| && OnCourse(whole, called, log, todo, i, handlers, outcomes)
    ensures Mentions(log, todo[i].id)
    ensures todo[i].kind !in handlers ==> OnCourse(whole, called, log, todo, i + 1, handlers, outcomes)
    ensures todo[i].kind in handlers && outcomes(|called|) ==>
      OnCourse(whole, called + [todo[i]], SetStatus(log, todo[i].id, RolledBack), todo, i + 1, handlers, outcomes)
    ensures todo[i].kind in handlers && !outcomes(|called|) ==>
      whole == Outcome(SetStatus(log, todo[i].id, Failed), called + [todo[i]], false)
  {
    assert todo[i] in todo && todo[i..][0] == todo[i] && todo[i..][1..] == todo[i + 1..];
    SetStatusKeepsAllMentioned(log, todo[i].id, RolledBack, todo);
    if todo[i].kind in handlers && outcomes(|called|) {
      var rest := Compensate(SetStatus(log, todo[i].id, RolledBack), todo[i + 1..], handlers, outcomes, |called| + 1);
      assert called + ([todo[i]] + rest.called) == called + [todo[i]] + rest.called;
    }
  }
}
