/** What every run of the sync ledger keeps: at most one live operation, and books that
    balance between operations, resource types and the results reported. */
module LedgerProperties {
  import opened SyncLedger
  import opened Wrappers

  // --------------------------------------------------------------- one live operation

  ghost predicate HasId(ops: seq<Operation>, id: string) {
    exists i :: 0 <= i < |ops| && ops[i].id == id
  }

  ghost predicate Known(s: State, id: string) {
    HasId(s.history, id) || HasId(s.removed, id)
  }

  ghost predicate DistinctIds(ops: seq<Operation>) {
    forall i, j :: 0 <= i < j < |ops| ==> ops[i].id != ops[j].id
  }

  /** Every operation ever started is in the history or was removed from it, once. */
  ghost predicate Registered(s: State) {
    && DistinctIds(s.history) && DistinctIds(s.removed)
    && (forall i :: 0 <= i < |s.history| ==> s.history[i].id != "" && !HasId(s.removed, s.history[i].id))
  }

  /** An operation of the history runs or is paused exactly when it is the current one. */
  ghost predicate OneLive(s: State) {
    && (s.inProgress <==> s.current != "")
    && (s.inProgress ==> HasId(s.history, s.current))
    && (forall i :: 0 <= i < |s.history| ==> (Live(s.history[i].status) <==> s.history[i].id == s.current))
    && (forall i :: 0 <= i < |s.removed| ==> !Live(s.removed[i].status))
  }

  ghost predicate Fresh(s: State, id: string) {
    id != "" && !Known(s, id)
  }

  ghost predicate FreshStart(s: State, step: Step) {
    step.Start? ==> Fresh(s, step.id)
  }

  /** The operation of the history that a step is about. */
  function Target(s: State, step: Step): (r: Option<nat>)
    ensures r.Some? ==> r.value < |s.history| && !step.RecordError? && s.history[r.value].id == step.id
  {
    if step.RecordError? then None else Find(s.history, step.id)
  }

  /** Completing the operation in progress with a status that is not an end: the one call
      that breaks the ledger. */
  predicate LeavesLive(s: State, step: Step) {
    step.Finish? && Live(step.status) && s.inProgress && step.id == s.current
  }

  lemma {:induction false} KeptExactly(ops: seq<Operation>, cutoff: int)
    ensures forall op :: op in Kept(ops, cutoff) <==> op in ops && op.startTime > cutoff
    ensures forall op :: op in Dropped(ops, cutoff) <==> op in ops && op.startTime <= cutoff
    decreases |ops|
  {
    if ops != [] {
      var front := ops[..|ops| - 1];
      KeptExactly(front, cutoff);
      assert ops == front + [ops[|ops| - 1]];
    }
  }

  lemma DistinctOneMore(ops: seq<Operation>, last: Operation)
    requires DistinctIds(ops) && forall op :: op in ops ==> op.id != last.id
    ensures DistinctIds(ops + [last])
  {
  }

  lemma {:induction false} KeptDistinct(ops: seq<Operation>, cutoff: int)
    requires DistinctIds(ops)
    ensures DistinctIds(Kept(ops, cutoff)) && DistinctIds(Dropped(ops, cutoff))
    decreases |ops|
  {
    if ops != [] {
      var front, last := ops[..|ops| - 1], ops[|ops| - 1];
      KeptDistinct(front, cutoff);
      KeptExactly(front, cutoff);
      if last.startTime > cutoff {
        DistinctOneMore(Kept(front, cutoff), last);
        assert Dropped(ops, cutoff) == Dropped(front, cutoff);
      } else {
        DistinctOneMore(Dropped(front, cutoff), last);
        assert Kept(ops, cutoff) == Kept(front, cutoff);
      }
    }
  }

  lemma HasIdOf(ops: seq<Operation>, op: Operation)
    requires op in ops
    ensures HasId(ops, op.id)
  {
  }

  /** The history after a start, and what the cleanup takes out of it. */
  lemma StartSplits(s: State, id: string, now: int)
    requires Registered(s) && Fresh(s, id)
    ensures var all, cutoff := s.history + [NewOperation(id, now)], now - RETENTION;
      && DistinctIds(all) && DistinctIds(Kept(all, cutoff)) && DistinctIds(Dropped(all, cutoff))
      && NewOperation(id, now) in Kept(all, cutoff)
      && (forall op :: op in Dropped(all, cutoff) ==> op in s.history && op !in Kept(all, cutoff))
      && (forall op :: op in Kept(all, cutoff) ==> op in s.history || op == NewOperation(id, now))
      && (forall op :: op in s.history ==> op in Kept(all, cutoff) || op in Dropped(all, cutoff))
  {
    var all, cutoff := s.history + [NewOperation(id, now)], now - RETENTION;
    KeptDistinct(all, cutoff);
    KeptExactly(all, cutoff);
    assert all[|s.history|] == NewOperation(id, now);
  }

  /** A start keeps what began in the last thirty days, to the second, and takes out the
      rest. */
  lemma ThirtyDaysKept(s: State, id: string, now: int, op: Operation)
    requires op in s.history
    ensures op in Started(s, id, now).history <==> op.startTime + 2_592_000 > now || op == NewOperation(id, now)
    ensures op.startTime + 2_592_000 <= now ==> op in Started(s, id, now).removed
  {
    var all, cutoff := s.history + [NewOperation(id, now)], now - 2_592_000;
    KeptExactly(all, cutoff);
    assert op in all;
    assert Started(s, id, now).removed == s.removed + Dropped(all, cutoff);
  }

  lemma HasIdJoined(a: seq<Operation>, b: seq<Operation>, id: string)
    ensures HasId(a + b, id) <==> HasId(a, id) || HasId(b, id)
  {
    var ops := a + b;
    assert forall i :: 0 <= i < |a| ==> ops[i] == a[i];
    assert forall i :: 0 <= i < |b| ==> ops[|a| + i] == b[i];
  }

  lemma KeptIsNotRemoved(s: State, id: string, now: int, op: Operation)
    requires Registered(s) && Fresh(s, id)
    requires op in Started(s, id, now).history
    ensures op.id != "" && !HasId(Started(s, id, now).removed, op.id)
  {
    var all, cutoff := s.history + [NewOperation(id, now)], now - RETENTION;
    StartSplits(s, id, now);
    var dropped := Dropped(all, cutoff);
    HasIdJoined(s.removed, dropped, op.id);
    assert op in all;
    forall k | 0 <= k < |dropped| ensures dropped[k].id != op.id {
      assert dropped[k] in dropped && dropped[k] in all && dropped[k] != op;
    }
  }

  lemma StartKeepsRegistered(s: State, id: string, now: int)
    requires Registered(s) && Fresh(s, id)
    ensures Registered(Started(s, id, now))
  {
    var s' := Started(s, id, now);
    StartSplits(s, id, now);
    forall i | 0 <= i < |s'.history| ensures s'.history[i].id != "" && !HasId(s'.removed, s'.history[i].id) {
      KeptIsNotRemoved(s, id, now, s'.history[i]);
    }
    var dropped := Dropped(s.history + [NewOperation(id, now)], now - RETENTION);
    forall i, j | 0 <= i < j < |s'.removed| ensures s'.removed[i].id != s'.removed[j].id {
      if i < |s.removed| <= j {
        assert dropped[j - |s.removed|] in dropped && dropped[j - |s.removed|] in s.history;
      }
    }
  }

  lemma StartKeepsOneLive(s: State, id: string, now: int)
    requires Registered(s) && OneLive(s) && Fresh(s, id) && !s.inProgress
    ensures OneLive(Started(s, id, now))
  {
    var all, cutoff := s.history + [NewOperation(id, now)], now - RETENTION;
    var s' := Started(s, id, now);
    StartSplits(s, id, now);
    HasIdOf(s'.history, NewOperation(id, now));
    forall i | 0 <= i < |s'.history| ensures Live(s'.history[i].status) <==> s'.history[i].id == id {
      assert s'.history[i] in Kept(all, cutoff);
      if s'.history[i] in s.history {
        HasIdOf(s.history, s'.history[i]);
      }
    }
    forall i | 0 <= i < |s'.removed| ensures !Live(s'.removed[i].status) {
      if i >= |s.removed| {
        assert s'.removed[i] in Dropped(all, cutoff);
      }
    }
  }

  /** A step on one operation that keeps its identifier. */
  lemma UpdateKeepsRegistered(s: State, s': State, i: nat)
    requires Registered(s) && i < |s.history| && |s'.history| == |s.history| && s'.removed == s.removed
    requires s'.history == s.history[i := s'.history[i]] && s'.history[i].id == s.history[i].id
    ensures Registered(s')
  {
    assert forall j :: 0 <= j < |s.history| ==> s'.history[j].id == s.history[j].id;
  }

  lemma UpdateKeepsHasId(ops: seq<Operation>, ops': seq<Operation>, id: string)
    requires |ops'| == |ops| && forall j :: 0 <= j < |ops| ==> ops'[j].id == ops[j].id
    ensures HasId(ops', id) <==> HasId(ops, id)
  {
  }

  lemma NextKeepsRegistered(s: State, step: Step)
    requires Registered(s) && FreshStart(s, step)
    ensures Registered(Next(s, step))
  {
    if Succeeds(s, step) {
      if step.Start? {
        StartKeepsRegistered(s, step.id, step.now);
      } else if Target(s, step).Some? {
        UpdateKeepsRegistered(s, Next(s, step), Target(s, step).value);
      }
    }
  }

  lemma NextKeepsOneLive(s: State, step: Step)
    requires Registered(s) && OneLive(s) && FreshStart(s, step) && !LeavesLive(s, step)
    ensures OneLive(Next(s, step))
  {
    if Succeeds(s, step) {
      if step.Start? {
        StartKeepsOneLive(s, step.id, step.now);
      } else if Target(s, step).Some? {
        UpdateKeepsHasId(s.history, Next(s, step).history, s.current);
      }
    }
  }

  lemma LeavingLiveBreaks(s: State, step: Step)
    requires Registered(s) && OneLive(s) && LeavesLive(s, step)
    ensures !OneLive(Next(s, step))
  {
    var i := Find(s.history, step.id).value;
    assert Next(s, step).history[i].id == step.id != "";
  }

  /** Exactly when a step keeps the ledger to one live operation: a completion that
      succeeds must not carry the status running or paused. */
  lemma StepKeepsOneLiveIff(s: State, step: Step)
    requires Registered(s) && OneLive(s) && FreshStart(s, step)
    ensures OneLive(Next(s, step)) <==> !LeavesLive(s, step)
  {
    if LeavesLive(s, step) {
      LeavingLiveBreaks(s, step);
    } else {
      NextKeepsOneLive(s, step);
    }
  }

  // ------------------------------------------------------------------ balanced books

  /** The sum of a map's values. */
  ghost function Sum(m: map<string, nat>): nat
    decreases |m|
  {
    if m == map[] then 0
    else
      var key :| key in m;
      assert |m - {key}| < |m| by { assert m.Keys - {key} < m.Keys; SmallerMap(m, key); }
      m[key] + Sum(m - {key})
  }

  lemma SmallerMap(m: map<string, nat>, key: string)
    requires key in m
    ensures |m - {key}| < |m|
  {
    assert (m - {key}).Keys == m.Keys - {key};
    assert |m.Keys - {key}| == |m.Keys| - 1;
  }

  lemma {:induction false} SumSplits(m: map<string, nat>, key: string)
    requires key in m
    ensures Sum(m) == m[key] + Sum(m - {key})
    decreases |m|
  {
    var first :| first in m && Sum(m) == m[first] + Sum(m - {first});
    if first != key {
      SmallerMap(m, first);
      SmallerMap(m, key);
      SumSplits(m - {first}, key);
      SumSplits(m - {key}, first);
      assert m - {first} - {key} == m - {key} - {first};
    }
  }

  lemma SumUpdate(m: map<string, nat>, key: string, value: nat)
    ensures Sum(m[key := value]) == Sum(m) - At(m, key) + value
  {
    SumSplits(m[key := value], key);
    assert m[key := value] - {key} == m - {key};
    if key in m {
      SumSplits(m, key);
    } else {
      assert m - {key} == m;
    }
  }

  /** One operation's own counters. */
  ghost predicate OwnCountersAgree(op: Operation) {
    && op.processed == op.successful + op.failed + op.skipped
    && Sum(op.errorSummary) == op.failed
  }

  lemma TalliedKeepsOwnCounters(op: Operation, outcome: Outcome)
    requires OwnCountersAgree(op)
    ensures OwnCountersAgree(Tallied(op, outcome))
  {
    if outcome.Failure? {
      SumUpdate(op.errorSummary, outcome.errorType, At(op.errorSummary, outcome.errorType) + 1);
    }
  }

  function Count(log: seq<Entry>, counted: Entry -> bool): nat
    decreases |log|
  {
    if log == [] then 0
    else Count(log[..|log| - 1], counted) + if counted(log[|log| - 1]) then 1 else 0
  }

  lemma CountOneMore(log: seq<Entry>, e: Entry, counted: Entry -> bool)
    ensures Count(log + [e], counted) == Count(log, counted) + if counted(e) then 1 else 0
  {
    assert (log + [e])[..|log|] == log;
  }

  function Of(id: string, outcome: Outcome): Entry -> bool {
    (e: Entry) => e.id == id && e.outcome == outcome
  }

  function FailuresOf(id: string): Entry -> bool {
    (e: Entry) => e.id == id && e.outcome.Failure?
  }

  function SuccessesOfType(kind: string): Entry -> bool {
    (e: Entry) => e.kind == kind && e.outcome.Success?
  }

  function FailuresOfType(kind: string): Entry -> bool {
    (e: Entry) => e.kind == kind && e.outcome.Failure?
  }

  /** An operation's counters count the results reported for it, each error type apart. */
  ghost predicate OperationBooked(log: seq<Entry>, op: Operation) {
    && OwnCountersAgree(op)
    && op.successful == Count(log, Of(op.id, Success))
    && op.skipped == Count(log, Of(op.id, Skip))
    && op.failed == Count(log, FailuresOf(op.id))
    && (forall e :: At(op.errorSummary, e) == Count(log, Of(op.id, Failure(e))))
  }

  lemma BookedForAnother(log: seq<Entry>, e: Entry, op: Operation)
    requires OperationBooked(log, op) && e.id != op.id
    ensures OperationBooked(log + [e], op)
  {
    CountOneMore(log, e, Of(op.id, Success));
    CountOneMore(log, e, Of(op.id, Skip));
    CountOneMore(log, e, FailuresOf(op.id));
    forall t ensures At(op.errorSummary, t) == Count(log + [e], Of(op.id, Failure(t))) {
      CountOneMore(log, e, Of(op.id, Failure(t)));
    }
  }

  lemma BookedForIt(log: seq<Entry>, op: Operation, kind: string, outcome: Outcome)
    requires OperationBooked(log, op)
    ensures OperationBooked(log + [Entry(op.id, kind, outcome)], Tallied(op, outcome))
  {
    var e := Entry(op.id, kind, outcome);
    TalliedKeepsOwnCounters(op, outcome);
    CountOneMore(log, e, Of(op.id, Success));
    CountOneMore(log, e, Of(op.id, Skip));
    CountOneMore(log, e, FailuresOf(op.id));
    forall t ensures At(Tallied(op, outcome).errorSummary, t) == Count(log + [e], Of(op.id, Failure(t))) {
      CountOneMore(log, e, Of(op.id, Failure(t)));
    }
  }

  ghost predicate AllBooked(log: seq<Entry>, ops: seq<Operation>) {
    forall i :: 0 <= i < |ops| ==> OperationBooked(log, ops[i])
  }

  ghost predicate TypeBooked(s: State, kind: string) {
    var t := Stats(s.types, kind);
    && t.synced == Count(s.log, SuccessesOfType(kind))
    && t.failed == t.errors == Count(s.log, FailuresOfType(kind))
    && t.total == t.synced + t.failed
  }

  /** Results are only accepted for operations that were started. */
  ghost predicate LogKnown(s: State) {
    forall i :: 0 <= i < |s.log| ==> Known(s, s.log[i].id)
  }

  ghost predicate Balanced(s: State) {
    && AllBooked(s.log, s.history) && AllBooked(s.log, s.removed)
    && (forall kind :: TypeBooked(s, kind))
    && LogKnown(s)
  }

  lemma {:induction false} NothingLogged(log: seq<Entry>, id: string, counted: Entry -> bool)
    requires forall i :: 0 <= i < |log| ==> log[i].id != id
    requires forall e :: counted(e) ==> e.id == id
    ensures Count(log, counted) == 0
    decreases |log|
  {
    if log != [] {
      NothingLogged(log[..|log| - 1], id, counted);
    }
  }

  lemma NewIsBooked(s: State, id: string, now: int)
    requires LogKnown(s) && Fresh(s, id)
    ensures OperationBooked(s.log, NewOperation(id, now))
  {
    NothingLogged(s.log, id, Of(id, Success));
    NothingLogged(s.log, id, Of(id, Skip));
    NothingLogged(s.log, id, FailuresOf(id));
    forall e ensures Count(s.log, Of(id, Failure(e))) == 0 {
      NothingLogged(s.log, id, Of(id, Failure(e)));
    }
  }

  lemma StartKeepsKnown(s: State, id: string, now: int, other: string)
    requires Registered(s) && Fresh(s, id) && Known(s, other)
    ensures Known(Started(s, id, now), other)
  {
    var s' := Started(s, id, now);
    StartSplits(s, id, now);
    if HasId(s.history, other) {
      var i :| 0 <= i < |s.history| && s.history[i].id == other;
      var op := s.history[i];
      assert op in s.history;
      assert op in s'.history || op in s'.removed;
    } else {
      var i :| 0 <= i < |s.removed| && s.removed[i].id == other;
      assert s'.removed[i] == s.removed[i];
    }
  }

  lemma StartKeepsBalanced(s: State, id: string, now: int)
    requires Registered(s) && Balanced(s) && Fresh(s, id)
    ensures Balanced(Started(s, id, now))
  {
    var s' := Started(s, id, now);
    StartSplits(s, id, now);
    NewIsBooked(s, id, now);
    forall i | 0 <= i < |s'.history| ensures OperationBooked(s'.log, s'.history[i]) {
      assert s'.history[i] in s'.history;
    }
    forall i | 0 <= i < |s'.removed| ensures OperationBooked(s'.log, s'.removed[i]) {
      assert i >= |s.removed| ==> s'.removed[i] in Dropped(s.history + [NewOperation(id, now)], now - RETENTION);
    }
    forall i | 0 <= i < |s'.log| ensures Known(s', s'.log[i].id) {
      StartKeepsKnown(s, id, now, s.log[i].id);
    }
    forall kind ensures TypeBooked(s', kind) {
      assert TypeBooked(s, kind);
    }
  }

  lemma ResultKeepsTypes(s: State, i: nat, kind: string, outcome: Outcome, other: string)
    requires i < |s.history| && TypeBooked(s, other)
    ensures TypeBooked(Accepted(s, i, kind, outcome), other)
  {
    var e, s' := Entry(s.history[i].id, kind, outcome), Accepted(s, i, kind, outcome);
    CountOneMore(s.log, e, SuccessesOfType(other));
    CountOneMore(s.log, e, FailuresOfType(other));
    assert Stats(s'.types, other) == if other == kind then Stats(TypesTallied(s.types, kind, outcome), kind) else Stats(s.types, other);
    assert SuccessesOfType(other)(e) <==> kind == other && outcome.Success?;
    assert FailuresOfType(other)(e) <==> kind == other && outcome.Failure?;
  }

  lemma ResultKeepsBalanced(s: State, i: nat, kind: string, outcome: Outcome)
    requires Registered(s) && Balanced(s) && i < |s.history|
    ensures Balanced(Accepted(s, i, kind, outcome))
  {
    var s', e := Accepted(s, i, kind, outcome), Entry(s.history[i].id, kind, outcome);
    BookedForIt(s.log, s.history[i], kind, outcome);
    forall j | 0 <= j < |s'.history| ensures OperationBooked(s'.log, s'.history[j]) {
      if j != i {
        BookedForAnother(s.log, e, s.history[j]);
      }
    }
    forall j | 0 <= j < |s'.removed| ensures OperationBooked(s'.log, s'.removed[j]) {
      assert s.removed[j].id != e.id;
      BookedForAnother(s.log, e, s.removed[j]);
    }
    forall other ensures TypeBooked(s', other) {
      ResultKeepsTypes(s, i, kind, outcome, other);
    }
    forall j | 0 <= j < |s'.log| ensures Known(s', s'.log[j].id) {
      UpdateKeepsHasId(s.history, s'.history, s'.log[j].id);
      assert j < |s.log| ==> Known(s, s.log[j].id);
    }
  }

  lemma StatusKeepsBalanced(s: State, s': State, i: nat, status: Status)
    requires Balanced(s) && i < |s.history| && s'.history == WithStatus(s, i, status).history
    requires s'.removed == s.removed && s'.log == s.log && s'.types == s.types
    ensures Balanced(s')
  {
    assert OperationBooked(s.log, s.history[i]);
    forall kind ensures TypeBooked(s', kind) {
      assert TypeBooked(s, kind);
    }
    forall j | 0 <= j < |s'.log| ensures Known(s', s'.log[j].id) {
      UpdateKeepsHasId(s.history, s'.history, s'.log[j].id);
      assert Known(s, s.log[j].id);
    }
  }

  lemma SameBooks(s: State, s': State)
    requires Balanced(s) && s'.history == s.history && s'.removed == s.removed && s'.log == s.log && s'.types == s.types
    ensures Balanced(s')
  {
    forall kind ensures TypeBooked(s', kind) {
      assert TypeBooked(s, kind);
    }
    forall j | 0 <= j < |s'.log| ensures Known(s', s'.log[j].id) {
      assert Known(s, s.log[j].id);
    }
  }

  lemma NextKeepsBalanced(s: State, step: Step)
    requires Registered(s) && Balanced(s) && FreshStart(s, step)
    ensures Balanced(Next(s, step))
  {
    if Succeeds(s, step) {
      match step
      case Start(id, now) => StartKeepsBalanced(s, id, now);
      case Result(id, kind, outcome) => ResultKeepsBalanced(s, Find(s.history, id).value, kind, outcome);
      case Finish(id, status) => StatusKeepsBalanced(s, Next(s, step), Find(s.history, id).value, status);
      case Pause(id) =>
        if Find(s.history, id).Some? { StatusKeepsBalanced(s, Next(s, step), Find(s.history, id).value, Paused); }
      case Resume(id) =>
        if Find(s.history, id).Some? { StatusKeepsBalanced(s, Next(s, step), Find(s.history, id).value, Running); }
      case RecordError => SameBooks(s, Next(s, step));
    }
  }

  // --------------------------------------------------------------------- grand totals

  function Total(ops: seq<Operation>, f: Operation -> nat): nat
    decreases |ops|
  {
    if ops == [] then 0 else Total(ops[..|ops| - 1], f) + f(ops[|ops| - 1])
  }

  lemma TotalOneMore(ops: seq<Operation>, op: Operation, f: Operation -> nat)
    ensures Total(ops + [op], f) == Total(ops, f) + f(op)
  {
    assert (ops + [op])[..|ops|] == ops;
  }

  lemma {:induction false} TotalJoined(a: seq<Operation>, b: seq<Operation>, f: Operation -> nat)
    ensures Total(a + b, f) == Total(a, f) + Total(b, f)
    decreases |b|
  {
    if b == [] {
      assert a + b == a;
    } else {
      TotalJoined(a, b[..|b| - 1], f);
      assert (a + b)[..|a + b| - 1] == a + b[..|b| - 1];
    }
  }

  lemma {:induction false} TotalUpdate(ops: seq<Operation>, i: nat, op: Operation, f: Operation -> nat)
    requires i < |ops|
    ensures Total(ops[i := op], f) == Total(ops, f) - f(ops[i]) + f(op)
    decreases |ops|
  {
    var n := |ops| - 1;
    if i < n {
      TotalUpdate(ops[..n], i, op, f);
      assert ops[i := op][..n] == ops[..n][i := op];
    } else {
      assert ops[i := op][..n] == ops[..n];
    }
  }

  lemma {:induction false} TotalKept(ops: seq<Operation>, cutoff: int, f: Operation -> nat)
    ensures Total(Kept(ops, cutoff), f) + Total(Dropped(ops, cutoff), f) == Total(ops, f)
    decreases |ops|
  {
    if ops != [] {
      var front, last := ops[..|ops| - 1], ops[|ops| - 1];
      TotalKept(front, cutoff, f);
      if last.startTime > cutoff {
        TotalOneMore(Kept(front, cutoff), last, f);
        assert Dropped(ops, cutoff) == Dropped(front, cutoff);
      } else {
        TotalOneMore(Dropped(front, cutoff), last, f);
        assert Kept(ops, cutoff) == Kept(front, cutoff);
      }
    }
  }

  /** Over every operation ever started. */
  ghost function Ever(s: State, f: Operation -> nat): nat {
    Total(s.history, f) + Total(s.removed, f)
  }

  lemma StartEver(s: State, id: string, now: int, f: Operation -> nat)
    ensures Ever(Started(s, id, now), f) == Ever(s, f) + f(NewOperation(id, now))
  {
    var all, cutoff := s.history + [NewOperation(id, now)], now - RETENTION;
    var s' := Started(s, id, now);
    TotalOneMore(s.history, NewOperation(id, now), f);
    TotalKept(all, cutoff, f);
    TotalJoined(s.removed, Dropped(all, cutoff), f);
    assert s'.history == Kept(all, cutoff) && s'.removed == s.removed + Dropped(all, cutoff);
  }

  function Successful(op: Operation): nat { op.successful }

  function FailedCount(op: Operation): nat { op.failed }

  function Over(op: Operation): nat { if Live(op.status) then 0 else 1 }

  function EndedCompleted(op: Operation): nat { if op.status.Completed? then 1 else 0 }

  function EndedFailed(op: Operation): nat { if op.status.Failed? then 1 else 0 }

  function Synced(types: map<string, TypeStats>): map<string, nat> {
    map kind | kind in types :: types[kind].synced
  }

  function FailedIn(types: map<string, TypeStats>): map<string, nat> {
    map kind | kind in types :: types[kind].failed
  }

  /** The totals per resource type add up to the totals per operation. */
  ghost predicate TypesMatchOperations(s: State) {
    && Sum(Synced(s.types)) == Ever(s, Successful)
    && Sum(FailedIn(s.types)) == Ever(s, FailedCount)
  }

  /** The overall statistics count the operations that ended, by how they ended. */
  ghost predicate StatisticsMatchOperations(s: State) {
    && s.overall.operations == Ever(s, Over)
    && s.overall.succeeded == Ever(s, EndedCompleted)
    && s.overall.failed == Ever(s, EndedFailed)
  }

  lemma TypesTalliedSums(types: map<string, TypeStats>, kind: string, outcome: Outcome)
    ensures var types' := TypesTallied(types, kind, outcome);
      && Sum(Synced(types')) == Sum(Synced(types)) + (if outcome.Success? then 1 else 0)
      && Sum(FailedIn(types')) == Sum(FailedIn(types)) + (if outcome.Failure? then 1 else 0)
  {
    if !outcome.Skip? {
      var t := Stats(TypesTallied(types, kind, outcome), kind);
      assert Synced(types[kind := t]) == Synced(types)[kind := t.synced];
      assert FailedIn(types[kind := t]) == FailedIn(types)[kind := t.failed];
      SumUpdate(Synced(types), kind, t.synced);
      SumUpdate(FailedIn(types), kind, t.failed);
    }
  }

  lemma NextEver(s: State, step: Step, f: Operation -> nat)
    ensures var s', found := Next(s, step), Target(s, step);
      Ever(s', f) ==
        if !Succeeds(s, step) then Ever(s, f)
        else if step.Start? then Ever(s, f) + f(NewOperation(step.id, step.now))
        else if found.None? then Ever(s, f)
        else Ever(s, f) - f(s.history[found.value]) + f(s'.history[found.value])
  {
    var found := Target(s, step);
    if Succeeds(s, step) && step.Start? {
      StartEver(s, step.id, step.now, f);
    } else if Succeeds(s, step) && found.Some? {
      TotalUpdate(s.history, found.value, Next(s, step).history[found.value], f);
    }
  }

  lemma NextMatchesTypes(s: State, step: Step)
    requires TypesMatchOperations(s)
    ensures TypesMatchOperations(Next(s, step))
  {
    NextEver(s, step, Successful);
    NextEver(s, step, FailedCount);
    if Succeeds(s, step) && step.Result? {
      TypesTalliedSums(s.types, step.kind, step.outcome);
    }
  }

  lemma NextCountsOver(s: State, step: Step)
    requires Registered(s) && OneLive(s) && FreshStart(s, step) && !LeavesLive(s, step)
    requires s.overall.operations == Ever(s, Over)
    ensures Next(s, step).overall.operations == Ever(Next(s, step), Over)
  {
    NextEver(s, step, Over);
  }

  lemma NextCountsCompleted(s: State, step: Step)
    requires Registered(s) && OneLive(s) && FreshStart(s, step) && !LeavesLive(s, step)
    requires s.overall.succeeded == Ever(s, EndedCompleted)
    ensures Next(s, step).overall.succeeded == Ever(Next(s, step), EndedCompleted)
  {
    NextEver(s, step, EndedCompleted);
  }

  lemma NextCountsFailed(s: State, step: Step)
    requires Registered(s) && OneLive(s) && FreshStart(s, step) && !LeavesLive(s, step)
    requires s.overall.failed == Ever(s, EndedFailed)
    ensures Next(s, step).overall.failed == Ever(Next(s, step), EndedFailed)
  {
    NextEver(s, step, EndedFailed);
  }

  lemma NextMatchesStatistics(s: State, step: Step)
    requires Registered(s) && OneLive(s) && StatisticsMatchOperations(s) && FreshStart(s, step) && !LeavesLive(s, step)
    ensures StatisticsMatchOperations(Next(s, step))
  {
    NextCountsOver(s, step);
    NextCountsCompleted(s, step);
    NextCountsFailed(s, step);
  }

  function SuccessfulIfOver(op: Operation): nat { if Live(op.status) then 0 else op.successful }

  function FailedIfOver(op: Operation): nat { if Live(op.status) then 0 else op.failed }

  /** The overall resource totals, which are added up when an operation ends, are those of
      the operations that ended. */
  ghost predicate TotalsMatchOperations(s: State) {
    && s.overall.resourcesSynced == Ever(s, SuccessfulIfOver)
    && s.overall.errors == Ever(s, FailedIfOver)
  }

  /** The same, with the errors that were recorded outside any operation told apart. */
  ghost predicate TotalsAccounted(s: State) {
    && s.overall.resourcesSynced == Ever(s, SuccessfulIfOver)
    && s.overall.errors == Ever(s, FailedIfOver) + s.recorded
  }

  /** A success or failure reported for an operation that is already over. */
  predicate Late(s: State, step: Step) {
    step.Result? && !step.outcome.Skip? && step.id != s.current && Find(s.history, step.id).Some?
  }

  lemma EndedSums(s: State, step: Step)
    requires Registered(s) && OneLive(s) && FreshStart(s, step) && !LeavesLive(s, step)
    ensures var s' := Next(s, step);
      && Ever(s', SuccessfulIfOver) - s'.overall.resourcesSynced
         == Ever(s, SuccessfulIfOver) - s.overall.resourcesSynced + (if Late(s, step) && step.outcome.Success? then 1 else 0)
      && Ever(s', FailedIfOver) - s'.overall.errors
         == Ever(s, FailedIfOver) - s.overall.errors
            + (if Late(s, step) && step.outcome.Failure? then 1 else if step.RecordError? then -1 else 0)
  {
    NextEver(s, step, SuccessfulIfOver);
    NextEver(s, step, FailedIfOver);
  }

  /** Exactly when a call keeps the overall resource totals equal to those of the ended
      operations: it neither reports late nor records an error outside any operation. */
  lemma StepKeepsTotalsIff(s: State, step: Step)
    requires Registered(s) && OneLive(s) && FreshStart(s, step) && !LeavesLive(s, step)
    requires TotalsMatchOperations(s)
    ensures TotalsMatchOperations(Next(s, step)) <==> !Late(s, step) && !step.RecordError?
  {
    EndedSums(s, step);
  }

  /** With recorded errors told apart, late reports are the one thing that breaks them. */
  lemma StepKeepsAccountIff(s: State, step: Step)
    requires Registered(s) && OneLive(s) && FreshStart(s, step) && !LeavesLive(s, step)
    requires TotalsAccounted(s)
    ensures TotalsAccounted(Next(s, step)) <==> !Late(s, step)
  {
    EndedSums(s, step);
  }

  // ------------------------------------------------------------------------ every run

  /** Fresh identifiers, and completions with a status that is an end. */
  ghost predicate TameRun(s: State, run: seq<Step>)
    decreases |run|
  {
    run == [] || (FreshStart(s, run[0]) && !LeavesLive(s, run[0]) && TameRun(Next(s, run[0]), run[1..]))
  }

  function Final(s: State, run: seq<Step>): State
    decreases |run|
  {
    if run == [] then s else Final(Next(s, run[0]), run[1..])
  }

  ghost predicate Inv(s: State) {
    Registered(s) && OneLive(s) && Balanced(s) && TypesMatchOperations(s) && StatisticsMatchOperations(s)
  }

  lemma NextKeepsInv(s: State, step: Step)
    requires Inv(s) && FreshStart(s, step) && !LeavesLive(s, step)
    ensures Inv(Next(s, step))
  {
    NextKeepsRegistered(s, step);
    NextKeepsOneLive(s, step);
    NextKeepsBalanced(s, step);
    NextMatchesTypes(s, step);
    NextMatchesStatistics(s, step);
  }

  lemma {:induction false} RunKeepsInv(s: State, run: seq<Step>)
    requires Inv(s) && TameRun(s, run)
    ensures Inv(Final(s, run))
    decreases |run|
  {
    if run != [] {
      NextKeepsInv(s, run[0]);
      RunKeepsInv(Next(s, run[0]), run[1..]);
    }
  }

  /** From the empty ledger, in every such run: at most one operation runs or is paused
      and it is the current one; every operation's counters and every type's statistics
      count the results reported, so both add up to the same totals; and the overall
      statistics count the operations that ended. */
  lemma EveryRunBalances(run: seq<Step>)
    requires TameRun(INIT, run)
    ensures Inv(Final(INIT, run))
  {
    assert Synced(INIT.types) == map[] && FailedIn(INIT.types) == map[];
    RunKeepsInv(INIT, run);
  }

  lemma AtMostOneLive(s: State, i: nat, j: nat)
    requires Inv(s) && i < |s.history| && j < |s.history| && Live(s.history[i].status) && Live(s.history[j].status)
    ensures i == j && s.inProgress && s.history[i].id == s.current
  {
    assert s.history[i].id == s.history[j].id;
  }

  /** While an operation is live no cleanup removes it, however old it is, since only a
      start cleans up and a start needs a ledger with nothing in progress. */
  lemma CurrentStays(s: State, step: Step)
    requires Inv(s) && s.inProgress && FreshStart(s, step) && !LeavesLive(s, step)
    ensures Next(s, step).inProgress ==> Next(s, step).current == s.current && HasId(Next(s, step).history, s.current)
    ensures !Next(s, step).inProgress <==> step.Finish? && step.id == s.current
  {
    NextKeepsOneLive(s, step);
  }

  // ----------------------------------------------------------- runs that break the rules

  ghost predicate Reachable(s: State) {
    exists run :: TameRun(INIT, run) && Final(INIT, run) == s
  }

  lemma ReachableHasInv(s: State)
    requires Reachable(s)
    ensures Inv(s)
  {
    var run :| TameRun(INIT, run) && Final(INIT, run) == s;
    EveryRunBalances(run);
  }

  /** One operation is in progress, and the overall resource totals are right. */
  ghost predicate InProgress(s: State, id: string) {
    Reachable(s) && s.inProgress && s.current == id && TotalsMatchOperations(s)
  }

  lemma OneStepRun(s: State, step: Step)
    requires FreshStart(s, step) && !LeavesLive(s, step)
    ensures TameRun(s, [step]) && Final(s, [step]) == Next(s, step)
  {
    assert [step][1..] == [];
  }

  lemma StartReaches(id: string, now: int) returns (s: State)
    requires id != ""
    ensures InProgress(s, id)
  {
    var run := [Start(id, now)];
    s := Next(INIT, run[0]);
    OneStepRun(INIT, run[0]);
    assert TameRun(INIT, run) && Final(INIT, run) == s;
    StepKeepsTotalsIff(INIT, run[0]);
  }

  lemma CurrentIsFound(s: State)
    requires OneLive(s) && s.inProgress
    ensures Find(s.history, s.current).Some?
  {
  }

  /** A started operation, completed as running, is live and not current. */
  lemma FinishAsRunningBreaks() returns (s: State)
    ensures InProgress(s, "a") && !OneLive(Next(s, Finish("a", Running)))
  {
    s := StartReaches("a", 0);
    ReachableHasInv(s);
    StepKeepsOneLiveIff(s, Finish("a", Running));
  }

  /** A success reported after the operation was completed is missing from the totals, and
      a recorded error is one too many in them. */
  lemma TotalsBreak() returns (s: State)
    ensures InProgress(s, "a")
    ensures var ended := Next(s, Finish("a", Completed));
      && TotalsMatchOperations(ended)
      && !TotalsMatchOperations(Next(ended, Result("a", "robot", Success)))
      && !TotalsMatchOperations(Next(ended, RecordError))
  {
    s := StartReaches("a", 0);
    ReachableHasInv(s);
    EndedBreaks(s, "a");
  }

  lemma EndedBreaks(s: State, id: string)
    requires Registered(s) && OneLive(s) && s.inProgress && s.current == id && TotalsMatchOperations(s)
    ensures var ended := Next(s, Finish(id, Completed));
      && TotalsMatchOperations(ended)
      && !TotalsMatchOperations(Next(ended, Result(id, "robot", Success)))
      && !TotalsMatchOperations(Next(ended, RecordError))
  {
    var finish := Finish(id, Completed);
    var ended := Next(s, finish);
    CurrentIsFound(s);
    StepKeepsTotalsIff(s, finish);
    NextKeepsRegistered(s, finish);
    NextKeepsOneLive(s, finish);
    assert Find(s.history, id).value < |ended.history| && ended.history[Find(s.history, id).value].id == id;
    StepKeepsTotalsIff(ended, Result(id, "robot", Success));
    StepKeepsTotalsIff(ended, RecordError);
  }

  // ------------------------------------------------------------------- pause and resume

  /** A pause of the running current operation is undone by a resume, and nothing else can
      be resumed: not an operation that is not paused, nor one that is not current. */
  lemma ResumeUndoesPause(s: State, id: string)
    ensures Find(s.history, id).Some? && s.current == id && s.history[Find(s.history, id).value].status.Running? ==>
      var paused := Next(s, Pause(id));
      && Succeeds(s, Pause(id)) && Succeeds(paused, Resume(id)) && Next(paused, Resume(id)) == s
      && paused.history[Find(s.history, id).value].status.Paused?
    ensures Succeeds(s, Resume(id)) ==>
      s.current == id && forall i: nat :: Find(s.history, id) == Some(i) ==> s.history[i].status.Paused?
  {
    var f := Find(s.history, id);
    if f.Some? && s.current == id && s.history[f.value].status.Running? {
      var i := f.value;
      var paused := Next(s, Pause(id));
      FindAfterUpdate(s.history, i, paused.history, id);
      assert paused.history == s.history[i := s.history[i].(status := Paused)];
      assert Next(paused, Resume(id)).history == s.history;
    }
  }
}
