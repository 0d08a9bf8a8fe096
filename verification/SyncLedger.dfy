/** The ledger of sync operations: start, per-resource results, pause, resume and
    completion, with the counters and statistics they keep. */
module SyncLedger {
  import opened Wrappers
  import P = Pagination

  datatype Status = Pending | Running | Paused | Completed | Failed | Cancelled

  predicate Live(status: Status) {
    status.Running? || status.Paused?
  }

  datatype Operation = Operation(id: string, startTime: int, status: Status,
    processed: nat, successful: nat, failed: nat, skipped: nat, errorSummary: map<string, nat>)

  datatype TypeStats = TypeStats(total: nat, synced: nat, failed: nat, errors: nat)

  datatype Overall = Overall(operations: nat, succeeded: nat, failed: nat, resourcesSynced: nat, errors: nat)

  datatype Outcome = Success | Failure(errorType: string) | Skip

  /** A result that was accepted, for the record. */
  datatype Entry = Entry(id: string, kind: string, outcome: Outcome)

  /** `removed`, `log` and `recorded` are kept for the statements only: the operations
      that left the history, every accepted result, and how many errors were recorded
      outside any operation. */
  datatype State = State(inProgress: bool, current: string, history: seq<Operation>,
    types: map<string, TypeStats>, overall: Overall, removed: seq<Operation>, log: seq<Entry>, recorded: nat)

  const INIT := State(false, "", [], map[], Overall(0, 0, 0, 0, 0), [], [], 0)

  /** Thirty days, in seconds. */
  const RETENTION := 30 * 24 * 3600

  /** Identifiers for `Start` are built from the clock.  `RecordError` is the error
      store's call, which shares the statistics. */
  datatype Step =
    | Start(id: string, now: int)
    | Result(id: string, kind: string, outcome: Outcome)
    | Finish(id: string, status: Status)
    | Pause(id: string)
    | Resume(id: string)
    | RecordError

  // ---------------------------------------------------------------- specification

  /** The search from the newest operation back. */
  function Find(history: seq<Operation>, id: string): (r: Option<nat>)
    ensures r.Some? ==> r.value < |history| && history[r.value].id == id
    ensures r.None? ==> forall i :: 0 <= i < |history| ==> history[i].id != id
    decreases |history|
  {
    if history == [] then None
    else if history[|history| - 1].id == id then Some(|history| - 1)
    else Find(history[..|history| - 1], id)
  }

  function Kept(history: seq<Operation>, cutoff: int): seq<Operation>
    decreases |history|
  {
    if history == [] then []
    else
      var last := history[|history| - 1];
      Kept(history[..|history| - 1], cutoff) + if last.startTime > cutoff then [last] else []
  }

  function Dropped(history: seq<Operation>, cutoff: int): seq<Operation>
    decreases |history|
  {
    if history == [] then []
    else
      var last := history[|history| - 1];
      Dropped(history[..|history| - 1], cutoff) + if last.startTime > cutoff then [] else [last]
  }

  function At(m: map<string, nat>, key: string): nat {
    if key in m then m[key] else 0
  }

  function Stats(types: map<string, TypeStats>, kind: string): TypeStats {
    if kind in types then types[kind] else TypeStats(0, 0, 0, 0)
  }

  function Tallied(op: Operation, outcome: Outcome): Operation {
    var op := match outcome
      case Success => op.(successful := op.successful + 1)
      case Failure(e) => op.(failed := op.failed + 1, errorSummary := op.errorSummary[e := At(op.errorSummary, e) + 1])
      case Skip => op.(skipped := op.skipped + 1);
    op.(processed := op.successful + op.failed + op.skipped)
  }

  /** A skipped resource leaves the type statistics alone. */
  function TypesTallied(types: map<string, TypeStats>, kind: string, outcome: Outcome): map<string, TypeStats> {
    var s := Stats(types, kind);
    match outcome
    case Success => types[kind := TypeStats(s.total + 1, s.synced + 1, s.failed, s.errors)]
    case Failure(_) => types[kind := TypeStats(s.total + 1, s.synced, s.failed + 1, s.errors + 1)]
    case Skip => types
  }

  function OverallTallied(o: Overall, op: Operation): Overall {
    Overall(o.operations + 1,
            o.succeeded + if op.status.Completed? then 1 else 0,
            o.failed + if op.status.Failed? then 1 else 0,
            o.resourcesSynced + op.successful, o.errors + op.failed)
  }

  function NewOperation(id: string, now: int): Operation {
    Operation(id, now, Running, 0, 0, 0, 0, map[])
  }

  function WithStatus(s: State, i: nat, status: Status): State
    requires i < |s.history|
  {
    s.(history := s.history[i := s.history[i].(status := status)])
  }

  function Cleaned(s: State, now: int): State {
    s.(history := Kept(s.history, now - RETENTION), removed := s.removed + Dropped(s.history, now - RETENTION))
  }

  function Started(s: State, id: string, now: int): State {
    Cleaned(s.(inProgress := true, current := id, history := s.history + [NewOperation(id, now)]), now)
  }

  function Finished(s: State, i: nat, status: Status): State
    requires i < |s.history|
  {
    var s := WithStatus(s, i, status);
    s.(inProgress := false, current := "", overall := OverallTallied(s.overall, s.history[i]))
  }

  function Accepted(s: State, i: nat, kind: string, outcome: Outcome): State
    requires i < |s.history|
  {
    s.(history := s.history[i := Tallied(s.history[i], outcome)], types := TypesTallied(s.types, kind, outcome),
       log := s.log + [Entry(s.history[i].id, kind, outcome)])
  }

  /** Whether the call reports success. */
  function Succeeds(s: State, step: Step): bool {
    match step
    case Start(_, _) => !s.inProgress
    case Result(id, _, _) => Find(s.history, id).Some?
    case Finish(id, _) => s.current == id && Find(s.history, id).Some?
    case Pause(id) => s.current == id
    case RecordError => true
    case Resume(id) =>
      s.current == id && var i := Find(s.history, id); i.Some? ==> s.history[i.value].status.Paused?
  }

  function ErrorRecorded(s: State): State {
    s.(overall := s.overall.(errors := s.overall.errors + 1), recorded := s.recorded + 1)
  }

  /** A call that fails changes nothing. */
  function Next(s: State, step: Step): State {
    if !Succeeds(s, step) then s
    else match step
      case Start(id, now) => Started(s, id, now)
      case Result(id, kind, outcome) => Accepted(s, Find(s.history, id).value, kind, outcome)
      case Finish(id, status) => Finished(s, Find(s.history, id).value, status)
      case Pause(id) => if Find(s.history, id).Some? then WithStatus(s, Find(s.history, id).value, Paused) else s
      case Resume(id) => if Find(s.history, id).Some? then WithStatus(s, Find(s.history, id).value, Running) else s
      case RecordError => ErrorRecorded(s)
  }

  // --------------------------------------------------------------- implementation

  class Ledger {
    var syncInProgress: bool
    var currentSyncID: string
    var syncHistory: seq<Operation>
    var resourceTypeStats: map<string, TypeStats>
    var totalSyncOperations: nat
    var successfulSyncOperations: nat
    var failedSyncOperations: nat
    var totalResourcesSynced: nat
    var totalErrors: nat
    ghost var removed: seq<Operation>
    ghost var log: seq<Entry>
    ghost var recorded: nat

    ghost function Value(): State
      reads this
    {
      State(syncInProgress, currentSyncID, syncHistory, resourceTypeStats,
            Overall(totalSyncOperations, successfulSyncOperations, failedSyncOperations, totalResourcesSynced, totalErrors),
            removed, log, recorded)
    }

    constructor ()
      ensures Value() == INIT
    {
      syncInProgress, currentSyncID, syncHistory, resourceTypeStats := false, "", [], map[];
      totalSyncOperations, successfulSyncOperations, failedSyncOperations := 0, 0, 0;
      totalResourcesSynced, totalErrors := 0, 0;
      removed, log, recorded := [], [], 0;
    }

    method FindOperation(id: string) returns (r: Option<nat>)
      ensures r == Find(syncHistory, id)
    {
      var i := |syncHistory|;
      assert syncHistory[..i] == syncHistory;
      while i > 0
        invariant 0 <= i <= |syncHistory| && Find(syncHistory, id) == Find(syncHistory[..i], id)
      {
        i := i - 1;
        assert syncHistory[..i + 1][..i] == syncHistory[..i];
        if syncHistory[i].id == id {
          return Some(i);
        }
      }
      return None;
    }

    method CleanupSyncHistory(now: int)
      modifies `syncHistory, `removed
      ensures Value() == Cleaned(old(Value()), now)
    {
      var cutoff := now - RETENTION;
      var validHistory: seq<Operation> := [];
      for i := 0 to |syncHistory|
        invariant validHistory == Kept(syncHistory[..i], cutoff)
      {
        assert syncHistory[..i + 1][..i] == syncHistory[..i];
        if syncHistory[i].startTime > cutoff {
          validHistory := validHistory + [syncHistory[i]];
        }
      }
      assert syncHistory[..|syncHistory|] == syncHistory;
      removed := removed + Dropped(syncHistory, cutoff);
      KeptAll(syncHistory, cutoff);
      if |validHistory| != |syncHistory| {
        syncHistory := validHistory;
      }
    }

    method StartSync(id: string, now: int) returns (ok: bool)
      modifies this
      ensures ok == Succeeds(old(Value()), Start(id, now)) && Value() == Next(old(Value()), Start(id, now))
    {
      if syncInProgress {
        return false;
      }
      syncInProgress := true;
      currentSyncID := id;
      syncHistory := syncHistory + [NewOperation(id, now)];
      CleanupSyncHistory(now);
      return true;
    }

    method UpdateSyncCounters(id: string, outcome: Outcome) returns (ok: bool)
      modifies `syncHistory
      ensures ok == Find(old(syncHistory), id).Some?
      ensures !ok ==> syncHistory == old(syncHistory)
      ensures ok ==> var i := Find(old(syncHistory), id).value;
        syncHistory == old(syncHistory)[i := Tallied(old(syncHistory)[i], outcome).(errorSummary := old(syncHistory)[i].errorSummary)]
    {
      var found := FindOperation(id);
      if found.None? {
        return false;
      }
      var op := syncHistory[found.value];
      match outcome {
        case Success => op := op.(successful := op.successful + 1);
        case Failure(_) => op := op.(failed := op.failed + 1);
        case Skip => op := op.(skipped := op.skipped + 1);
      }
      op := op.(processed := op.successful + op.failed + op.skipped);
      syncHistory := syncHistory[found.value := op];
      return true;
    }

    method UpdateErrorSummary(id: string, errorType: string) returns (ok: bool)
      modifies `syncHistory
      ensures ok == Find(old(syncHistory), id).Some?
      ensures !ok ==> syncHistory == old(syncHistory)
      ensures ok ==> var i := Find(old(syncHistory), id).value; var op := old(syncHistory)[i];
        syncHistory == old(syncHistory)[i := op.(errorSummary := op.errorSummary[errorType := At(op.errorSummary, errorType) + 1])]
    {
      var found := FindOperation(id);
      if found.None? {
        return false;
      }
      var op := syncHistory[found.value];
      syncHistory := syncHistory[found.value := op.(errorSummary := op.errorSummary[errorType := At(op.errorSummary, errorType) + 1])];
      return true;
    }

    method UpdateResourceTypeStats(kind: string, success: bool)
      modifies `resourceTypeStats
      ensures resourceTypeStats == TypesTallied(old(resourceTypeStats), kind, if success then Success else Failure(""))
    {
      var stats := Stats(resourceTypeStats, kind).(total := Stats(resourceTypeStats, kind).total + 1);
      if success {
        stats := stats.(synced := stats.synced + 1);
      } else {
        stats := stats.(failed := stats.failed + 1, errors := stats.errors + 1);
      }
      resourceTypeStats := resourceTypeStats[kind := stats];
    }

    method CompleteSyncForResource(id: string, kind: string) returns (ok: bool)
      modifies this
      ensures ok == Succeeds(old(Value()), Result(id, kind, Success)) && Value() == Next(old(Value()), Result(id, kind, Success))
    {
      ok := UpdateSyncCounters(id, Success);
      if ok {
        UpdateResourceTypeStats(kind, true);
        log := log + [Entry(id, kind, Success)];
      }
    }

    method FailSyncForResource(id: string, kind: string, errorType: string) returns (ok: bool)
      modifies this
      ensures ok == Succeeds(old(Value()), Result(id, kind, Failure(errorType)))
      ensures Value() == Next(old(Value()), Result(id, kind, Failure(errorType)))
    {
      ok := UpdateSyncCounters(id, Failure(errorType));
      if !ok {
        return;
      }
      FindAfterUpdate(old(syncHistory), Find(old(syncHistory), id).value, syncHistory, id);
      ok := UpdateErrorSummary(id, errorType);
      if !ok {
        return;
      }
      UpdateResourceTypeStats(kind, false);
      log := log + [Entry(id, kind, Failure(errorType))];
    }

    method SkipSyncForResource(id: string, kind: string) returns (ok: bool)
      modifies this
      ensures ok == Succeeds(old(Value()), Result(id, kind, Skip)) && Value() == Next(old(Value()), Result(id, kind, Skip))
    {
      ok := UpdateSyncCounters(id, Skip);
      if ok {
        log := log + [Entry(id, kind, Skip)];
      }
    }

    method UpdateOverallStatistics(operation: Operation)
      modifies this
      ensures Value() == old(Value()).(overall := OverallTallied(old(Value()).overall, operation))
    {
      totalSyncOperations := totalSyncOperations + 1;
      if operation.status == Completed {
        successfulSyncOperations := successfulSyncOperations + 1;
      } else if operation.status == Failed {
        failedSyncOperations := failedSyncOperations + 1;
      }
      totalResourcesSynced := totalResourcesSynced + operation.successful;
      totalErrors := totalErrors + operation.failed;
    }

    method CompleteSyncOperation(id: string, status: Status) returns (ok: bool)
      modifies this
      ensures ok == Succeeds(old(Value()), Finish(id, status)) && Value() == Next(old(Value()), Finish(id, status))
    {
      if currentSyncID != id {
        return false;
      }
      var found := FindOperation(id);
      if found.None? {
        return false;
      }
      var operation := syncHistory[found.value].(status := status);
      syncInProgress, currentSyncID := false, "";
      syncHistory := syncHistory[found.value := operation];
      UpdateOverallStatistics(operation);
      return true;
    }

    method PauseSyncOperation(id: string) returns (ok: bool)
      modifies this
      ensures ok == Succeeds(old(Value()), Pause(id)) && Value() == Next(old(Value()), Pause(id))
    {
      if currentSyncID != id {
        return false;
      }
      var found := FindOperation(id);
      if found.Some? {
        syncHistory := syncHistory[found.value := syncHistory[found.value].(status := Paused)];
      }
      return true;
    }

    method ResumeSyncOperation(id: string) returns (ok: bool)
      modifies this
      ensures ok == Succeeds(old(Value()), Resume(id)) && Value() == Next(old(Value()), Resume(id))
    {
      if currentSyncID != id {
        return false;
      }
      var found := FindOperation(id);
      if found.Some? {
        if syncHistory[found.value].status != Paused {
          return false;
        }
        syncHistory := syncHistory[found.value := syncHistory[found.value].(status := Running)];
      }
      return true;
    }

    /** What recording an error does to the statistics. */
    method RecordErrorStatistics()
      modifies this
      ensures Value() == Next(old(Value()), RecordError)
    {
      totalErrors := totalErrors + 1;
      recorded := recorded + 1;
    }

    method GetSyncHistory(page: int, pageSize: int) returns (operations: seq<Operation>, total: nat)
      ensures operations == P.PageOf(syncHistory, page, pageSize) && total == |syncHistory|
    {
      var hasNext;
      operations, hasNext := P.GetPage(syncHistory, page, pageSize);
      total := |syncHistory|;
    }

    method CancelSyncOperation(id: string) returns (ok: bool)
      modifies this
      ensures ok == Succeeds(old(Value()), Finish(id, Cancelled)) && Value() == Next(old(Value()), Finish(id, Cancelled))
    {
      ok := CompleteSyncOperation(id, Cancelled);
    }
  }

  lemma {:induction false} KeptAll(history: seq<Operation>, cutoff: int)
    ensures |Kept(history, cutoff)| <= |history|
    ensures |Kept(history, cutoff)| == |history| ==> Kept(history, cutoff) == history
    decreases |history|
  {
    if history != [] {
      var front, last := history[..|history| - 1], history[|history| - 1];
      KeptAll(front, cutoff);
      KeptOneMore(history, cutoff);
      if |Kept(history, cutoff)| == |history| {
        assert history == front + [last];
      }
    }
  }

  lemma KeptOneMore(history: seq<Operation>, cutoff: int)
    requires history != []
    ensures var front, last := history[..|history| - 1], history[|history| - 1];
      Kept(history, cutoff) == if last.startTime > cutoff then Kept(front, cutoff) + [last] else Kept(front, cutoff)
  {
    var kept: seq<Operation> := Kept(history[..|history| - 1], cutoff);
    assert kept + [] == kept;
  }

  lemma {:induction false} FindAfterUpdate(history: seq<Operation>, i: nat, history': seq<Operation>, id: string)
    requires i < |history| && |history'| == |history| && history'[i].id == history[i].id && history' == history[i := history'[i]]
    ensures Find(history', id) == Find(history, id)
    decreases |history|
  {
    var n := |history| - 1;
    if history[n].id != id {
      if i < n {
        assert history'[..n] == history[..n][i := history'[i]];
        FindAfterUpdate(history[..n], i, history'[..n], id);
      } else {
        assert history'[..n] == history[..n];
      }
    }
  }
}
