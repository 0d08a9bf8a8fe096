/** The store of sync errors: filtered pages, clearing, resolving and retrying. */
module ErrorStore {
  import opened Collections
  import opened Wrappers
  import P = Pagination

  /** `nextRetryAt` is `None` for the zero time, which never makes a retry wait. */
  datatype SyncError = SyncError(id: string, timestamp: int, retryableType: bool, retryCount: int, maxRetries: int,
                                 nextRetryAt: Option<int>, resolved: bool)

  const DEFAULT_MAX_RETRIES := 3

  datatype QueryResult = QueryResult(errors: seq<SyncError>, totalCount: nat, page: int, pageSize: int, hasNext: bool)

  /** A new error; a type that may be retried waits until `retryAt`. */
  function Recorded(id: string, now: int, retryable: bool, retryAt: int): SyncError {
    SyncError(id, now, retryable, 0, DEFAULT_MAX_RETRIES, if retryable then Some(retryAt) else None, false)
  }

  function Filter(errors: seq<SyncError>, matches: SyncError -> bool): (r: seq<SyncError>)
    ensures forall e :: e in r <==> e in errors && matches(e)
    decreases |errors|
  {
    if errors == [] then []
    else
      var last := errors[|errors| - 1];
      Filter(errors[..|errors| - 1], matches) + if matches(last) then [last] else []
  }

  function Find(errors: seq<SyncError>, id: string, from: nat): (r: Option<nat>)
    requires from <= |errors|
    ensures r.Some? ==> from <= r.value < |errors| && errors[r.value].id == id
                        && forall i :: from <= i < r.value ==> errors[i].id != id
    ensures r.None? ==> forall i :: from <= i < |errors| ==> errors[i].id != id
    decreases |errors| - from
  {
    if from == |errors| then None
    else if errors[from].id == id then Some(from)
    else Find(errors, id, from + 1)
  }

  predicate Retryable(e: SyncError, now: int) {
    && !e.resolved && e.retryableType && e.retryCount < e.maxRetries
    && (e.nextRetryAt.Some? ==> now >= e.nextRetryAt.value)
  }

  /** `next` is the time that the backoff computes, `limit` the configured maximum. */
  function Retried(e: SyncError, limit: int, next: int): SyncError {
    e.(retryCount := e.retryCount + 1, nextRetryAt := if e.retryCount + 1 >= limit then None else Some(next))
  }

  function AfterRetry(errors: seq<SyncError>, id: string, now: int, limit: int, next: int): seq<SyncError> {
    var i := Find(errors, id, 0);
    if i.Some? && Retryable(errors[i.value], now) then errors[i.value := Retried(errors[i.value], limit, next)] else errors
  }

  predicate Stays(e: SyncError, cutoff: int) {
    !e.resolved || e.timestamp > cutoff
  }

  function AfterClear(errors: seq<SyncError>, cutoff: int): seq<SyncError> {
    Filter(errors, e => Stays(e, cutoff))
  }

  function AfterResolve(errors: seq<SyncError>, id: string): seq<SyncError> {
    var i := Find(errors, id, 0);
    if i.Some? then errors[i.value := errors[i.value].(resolved := true)] else errors
  }

  ghost predicate DistinctIds(errors: seq<SyncError>) {
    forall i, j :: 0 <= i < j < |errors| ==> errors[i].id != errors[j].id
  }

  function Eligible(errors: seq<SyncError>, now: int): seq<SyncError> {
    Filter(errors, e => Retryable(e, now))
  }

  /** The errors of `done` were retried once each, and nothing else changed. */
  ghost predicate RetriedAmong(before: seq<SyncError>, after: seq<SyncError>, done: seq<SyncError>, limit: int, next: string -> int) {
    && |after| == |before|
    && forall i :: 0 <= i < |before| ==>
         after[i] == if before[i] in done then Retried(before[i], limit, next(before[i].id)) else before[i]
  }

  class Store {
    var syncErrors: seq<SyncError>

    constructor ()
      ensures syncErrors == []
    {
      syncErrors := [];
    }

    method RecordError(id: string, now: int, retryable: bool, retryAt: int)
      modifies this
      ensures syncErrors == old(syncErrors) + [Recorded(id, now, retryable, retryAt)]
    {
      var nextRetryAt := None;
      if retryable {
        nextRetryAt := Some(retryAt);
      }
      syncErrors := syncErrors + [SyncError(id, now, retryable, 0, DEFAULT_MAX_RETRIES, nextRetryAt, false)];
    }

    method GetErrors(matches: SyncError -> bool, page: int, pageSize: int) returns (r: QueryResult)
      ensures var filtered := Filter(syncErrors, matches);
        && r.errors == P.PageOf(filtered, page, pageSize) && r.totalCount == |filtered|
        && r.page == P.PageNumber(page) && r.pageSize == P.PageSize(pageSize)
        && (r.hasNext <==> P.PageOf(filtered, r.page + 1, pageSize) != [])
    {
      var filtered: seq<SyncError> := [];
      for i := 0 to |syncErrors|
        invariant filtered == Filter(syncErrors[..i], matches)
      {
        assert syncErrors[..i + 1][..i] == syncErrors[..i];
        if matches(syncErrors[i]) {
          filtered := filtered + [syncErrors[i]];
        }
      }
      assert syncErrors[..|syncErrors|] == syncErrors;
      var errors, hasNext := P.GetPage(filtered, page, pageSize);
      r := QueryResult(errors, |filtered|, P.PageNumber(page), P.PageSize(pageSize), hasNext);
    }

    method ClearErrors(now: int, olderThan: int) returns (removed: nat)
      modifies this
      ensures syncErrors == AfterClear(old(syncErrors), now - olderThan)
      ensures removed == |old(syncErrors)| - |syncErrors|
    {
      var cutoff := now - olderThan;
      var stays := e => Stays(e, cutoff);
      var remaining: seq<SyncError> := [];
      removed := 0;
      for i := 0 to |syncErrors|
        invariant remaining == Filter(syncErrors[..i], stays) && removed == i - |remaining|
      {
        assert syncErrors[..i + 1][..i] == syncErrors[..i];
        if !syncErrors[i].resolved || syncErrors[i].timestamp > cutoff {
          remaining := remaining + [syncErrors[i]];
        } else {
          removed := removed + 1;
        }
      }
      assert syncErrors[..|syncErrors|] == syncErrors;
      syncErrors := remaining;
    }

    method FindError(id: string) returns (r: Option<nat>)
      ensures r == Find(syncErrors, id, 0)
    {
      for i := 0 to |syncErrors|
        invariant Find(syncErrors, id, 0) == Find(syncErrors, id, i)
      {
        if syncErrors[i].id == id {
          return Some(i);
        }
      }
      return None;
    }

    method ResolveError(id: string) returns (ok: bool)
      modifies this
      ensures ok <==> exists i :: 0 <= i < |old(syncErrors)| && old(syncErrors)[i].id == id
      ensures syncErrors == AfterResolve(old(syncErrors), id)
    {
      var found := FindError(id);
      if found.None? {
        return false;
      }
      syncErrors := syncErrors[found.value := syncErrors[found.value].(resolved := true)];
      return true;
    }

    method RetryError(id: string, now: int, limit: int, next: int) returns (ok: bool)
      modifies this
      ensures syncErrors == AfterRetry(old(syncErrors), id, now, limit, next)
      ensures ok <==> syncErrors != old(syncErrors)
    {
      var found := FindError(id);
      if found.None? || !Retryable(syncErrors[found.value], now) {
        return false;
      }
      var e := syncErrors[found.value];
      e := e.(retryCount := e.retryCount + 1, nextRetryAt := Some(next));
      if e.retryCount >= limit {
        e := e.(nextRetryAt := None);
      }
      assert e.retryCount != syncErrors[found.value].retryCount;
      syncErrors := syncErrors[found.value := e];
      return true;
    }

    method GetRetryableErrors(now: int) returns (eligible: seq<SyncError>)
      ensures eligible == Eligible(syncErrors, now)
    {
      eligible := [];
      for i := 0 to |syncErrors|
        invariant eligible == Eligible(syncErrors[..i], now)
      {
        assert syncErrors[..i + 1][..i] == syncErrors[..i];
        if Retryable(syncErrors[i], now) {
          eligible := eligible + [syncErrors[i]];
        }
      }
      assert syncErrors[..|syncErrors|] == syncErrors;
    }

    /** The clock is read once for the list and again for each error; `next(id)` is the
        backoff's time. */
    method AutoRetryErrors(clock: nat -> int, limit: int, next: string -> int) returns (count: nat)
      requires forall k: nat :: clock(0) <= clock(k)
      modifies this
      ensures count <= |Eligible(old(syncErrors), clock(0))|
      ensures DistinctIds(old(syncErrors)) ==>
        && count == |Eligible(old(syncErrors), clock(0))|
        && RetriedAmong(old(syncErrors), syncErrors, Eligible(old(syncErrors), clock(0)), limit, next)
    {
      var eligible := GetRetryableErrors(clock(0));
      count := 0;
      for k := 0 to |eligible|
        invariant count <= k
        invariant DistinctIds(old(syncErrors)) ==>
          count == k && RetriedAmong(old(syncErrors), syncErrors, eligible[..k], limit, next)
      {
        if DistinctIds(old(syncErrors)) {
          RetryNext(old(syncErrors), syncErrors, eligible, k, clock(0), clock(k + 1), limit, next);
        }
        var ok := RetryError(eligible[k].id, clock(k + 1), limit, next(eligible[k].id));
        if ok {
          count := count + 1;
        }
      }
      assert eligible[..|eligible|] == eligible;
    }
  }

  lemma EligibleAt(before: seq<SyncError>, eligible: seq<SyncError>, k: nat, now: int) returns (i: nat)
    requires DistinctIds(before) && eligible == Eligible(before, now) && k < |eligible|
    ensures i < |before| && before[i] == eligible[k] && Retryable(before[i], now) && eligible[k] !in eligible[..k]
  {
    FilterDistinct(before, e => Retryable(e, now));
    assert eligible[k] in eligible && eligible[k] in before;
    i :| 0 <= i < |before| && before[i] == eligible[k];
  }

  lemma RetryOne(before: seq<SyncError>, errors: seq<SyncError>, done: seq<SyncError>, i: nat, now: int,
                 limit: int, next: string -> int)
    requires DistinctIds(before) && i < |before| && Retryable(before[i], now) && before[i] !in done
    requires RetriedAmong(before, errors, done, limit, next)
    ensures var e := before[i];
      && AfterRetry(errors, e.id, now, limit, next(e.id)) == errors[i := Retried(e, limit, next(e.id))]
      && errors[i := Retried(e, limit, next(e.id))] != errors
  {
    var e := before[i];
    assert forall j :: 0 <= j < |before| ==> errors[j].id == before[j].id;
    FirstIsOnly(errors, i);
    assert errors[i] == e;
    assert Retried(e, limit, next(e.id)).retryCount != e.retryCount;
  }

  lemma RetryNext(before: seq<SyncError>, errors: seq<SyncError>, eligible: seq<SyncError>, k: nat, start: int, now: int,
                  limit: int, next: string -> int)
    requires DistinctIds(before) && eligible == Eligible(before, start) && k < |eligible| && start <= now
    requires RetriedAmong(before, errors, eligible[..k], limit, next)
    ensures var e := eligible[k];
      && AfterRetry(errors, e.id, now, limit, next(e.id)) != errors
      && RetriedAmong(before, AfterRetry(errors, e.id, now, limit, next(e.id)), eligible[..k + 1], limit, next)
  {
    var i := EligibleAt(before, eligible, k, start);
    RetryOne(before, errors, eligible[..k], i, now, limit, next);
    assert eligible[..k + 1] == eligible[..k] + [eligible[k]];
    assert forall j :: 0 <= j < |before| && j != i ==> before[j] != before[i];
  }

  // ------------------------------------------------------------------------ properties

  /** A filter whose verdict is fixed: reading all pages gives each matching error once,
      newest first. */
  lemma PagesShowEachErrorOnce(errors: seq<SyncError>, matches: SyncError -> bool, pageSize: int)
    ensures var filtered := Filter(errors, matches);
      && P.FirstPages(filtered, pageSize, P.Pages(|filtered|, P.PageSize(pageSize))) == Reversed(filtered)
      && forall e :: e in Reversed(filtered) <==> e in errors && matches(e)
  {
    var filtered := Filter(errors, matches);
    P.PagesConcatenate(filtered, pageSize);
    ReversedMembers(filtered);
  }

  lemma {:induction false} FilterDistinct(errors: seq<SyncError>, matches: SyncError -> bool)
    requires DistinctIds(errors)
    ensures DistinctIds(Filter(errors, matches))
    decreases |errors|
  {
    if errors != [] {
      var front := errors[..|errors| - 1];
      FilterDistinct(front, matches);
      forall i | 0 <= i < |Filter(front, matches)| ensures Filter(front, matches)[i].id != errors[|errors| - 1].id {
        assert Filter(front, matches)[i] in front;
      }
    }
  }

  lemma FirstIsOnly(errors: seq<SyncError>, i: nat)
    requires DistinctIds(errors) && i < |errors|
    ensures Find(errors, errors[i].id, 0) == Some(i)
  {
  }

  // ----------------------------------------------------------------- runs of the store

  datatype Step =
    | Record(id: string, now: int, retryable: bool, retryAt: int)
    | Resolve(id: string)
    | Retry(id: string, now: int, limit: int, next: int)
    | Clear(cutoff: int)

  function Next(errors: seq<SyncError>, step: Step): seq<SyncError> {
    match step
    case Record(id, now, retryable, retryAt) => errors + [Recorded(id, now, retryable, retryAt)]
    case Resolve(id) => AfterResolve(errors, id)
    case Retry(id, now, limit, next) => AfterRetry(errors, id, now, limit, next)
    case Clear(cutoff) => AfterClear(errors, cutoff)
  }

  function Final(errors: seq<SyncError>, run: seq<Step>): seq<SyncError>
    decreases |run|
  {
    if run == [] then errors else Final(Next(errors, run[0]), run[1..])
  }

  predicate IsAccepted(errors: seq<SyncError>, step: Step, id: string) {
    step.Retry? && step.id == id && Next(errors, step) != errors
  }

  /** Retries of `id` that were let through. */
  function Accepted(errors: seq<SyncError>, run: seq<Step>, id: string): nat
    decreases |run|
  {
    if run == [] then 0
    else (if IsAccepted(errors, run[0], id) then 1 else 0) + Accepted(Next(errors, run[0]), run[1..], id)
  }

  /** How often the run records an error under `id`. */
  function Records(run: seq<Step>, id: string): nat
    decreases |run|
  {
    if run == [] then 0
    else (if run[0].Record? && run[0].id == id then 1 else 0) + Records(run[1..], id)
  }

  /** The retries that one error still has. */
  function Remaining(e: SyncError): nat {
    if e.retryCount < e.maxRetries then e.maxRetries - e.retryCount else 0
  }

  /** The retries that all errors under `id` still have. */
  function Left(errors: seq<SyncError>, id: string): nat
    decreases |errors|
  {
    if errors == [] then 0
    else
      var last := errors[|errors| - 1];
      Left(errors[..|errors| - 1], id) + if last.id == id then Remaining(last) else 0
  }

  lemma {:induction false} LeftAfterFilter(errors: seq<SyncError>, matches: SyncError -> bool, id: string)
    ensures Left(Filter(errors, matches), id) <= Left(errors, id)
    decreases |errors|
  {
    if errors != [] {
      var front, last := errors[..|errors| - 1], errors[|errors| - 1];
      LeftAfterFilter(front, matches, id);
      if matches(last) {
        assert (Filter(front, matches) + [last])[..|Filter(front, matches)|] == Filter(front, matches);
      } else {
        assert Filter(front, matches) + [] == Filter(front, matches);
      }
    }
  }

  lemma {:induction false} LeftAfterUpdate(errors: seq<SyncError>, j: nat, e: SyncError, id: string)
    requires j < |errors| && e.id == errors[j].id
    ensures Left(errors[j := e], id) == Left(errors, id) + if e.id == id then Remaining(e) - Remaining(errors[j]) else 0
    decreases |errors|
  {
    var n := |errors| - 1;
    if j < n {
      LeftAfterUpdate(errors[..n], j, e, id);
      assert errors[j := e][..n] == errors[..n][j := e];
    } else {
      assert errors[j := e][..n] == errors[..n];
    }
  }

  lemma NextLeaves(errors: seq<SyncError>, step: Step, id: string)
    ensures (if IsAccepted(errors, step, id) then 1 else 0) + Left(Next(errors, step), id)
         <= Left(errors, id) + if step.Record? && step.id == id then DEFAULT_MAX_RETRIES else 0
  {
    match step
    case Record(_, _, _, _) =>
      assert Next(errors, step)[..|errors|] == errors;
    case Clear(cutoff) => LeftAfterFilter(errors, e => Stays(e, cutoff), id);
    case Resolve(other) =>
      var j := Find(errors, other, 0);
      if j.Some? {
        LeftAfterUpdate(errors, j.value, errors[j.value].(resolved := true), id);
      }
    case Retry(other, now, limit, next) =>
      var j := Find(errors, other, 0);
      if j.Some? {
        LeftAfterUpdate(errors, j.value, Retried(errors[j.value], limit, next), id);
      }
  }

  /** From any store, however they are interleaved with everything else and whatever limits
      the calls configure: the retries of an identifier are at most what its stored errors
      still allow, and three more for every error that the run records under it. */
  lemma {:induction false} RetriesAreBounded(errors: seq<SyncError>, run: seq<Step>, id: string)
    ensures Accepted(errors, run, id) + Left(Final(errors, run), id) <= Left(errors, id) + DEFAULT_MAX_RETRIES * Records(run, id)
    decreases |run|
  {
    if run != [] {
      NextLeaves(errors, run[0], id);
      RetriesAreBounded(Next(errors, run[0]), run[1..], id);
    }
  }

  /** The configured limit stops nothing by itself: reaching it clears the waiting time, so
      the next call, with no time gone by, is let through exactly when the error's own
      limit is higher. */
  lemma ExceededIsRetriedAgainIff(errors: seq<SyncError>, id: string, i: nat, now: int, limit: int, next: int, again: int)
    requires Find(errors, id, 0) == Some(i) && Retryable(errors[i], now) && errors[i].retryCount + 1 >= limit
    ensures var first := AfterRetry(errors, id, now, limit, next);
      AfterRetry(first, id, now, limit, again) != first <==> errors[i].retryCount + 1 < errors[i].maxRetries
  {
    var e := Retried(errors[i], limit, next);
    FoundAgain(errors, id, i, e);
    var first := errors[i := e];
    if Retryable(e, now) {
      assert first[i := Retried(e, limit, again)][i] != e;
    }
  }

  /** Below the configured limit a retry makes the error wait: the next one is let through
      exactly when the backoff's time has come and the error's own limit is higher. */
  lemma RetryWaits(errors: seq<SyncError>, id: string, i: nat, now: int, limit: int, next: int, at: int, again: int)
    requires Find(errors, id, 0) == Some(i) && Retryable(errors[i], now) && errors[i].retryCount + 1 < limit
    ensures var first := AfterRetry(errors, id, now, limit, next);
      AfterRetry(first, id, at, limit, again) != first <==> at >= next && errors[i].retryCount + 1 < errors[i].maxRetries
  {
    var e := Retried(errors[i], limit, next);
    FoundAgain(errors, id, i, e);
    var first := errors[i := e];
    if Retryable(e, at) {
      assert first[i := Retried(e, limit, again)][i] != e;
    }
  }

  /** A retry is let through exactly when the first error under the identifier is not
      resolved, is of a type that may be retried, has retries left and need not wait. */
  lemma RetryAcceptedIff(errors: seq<SyncError>, id: string, now: int, limit: int, next: int)
    ensures AfterRetry(errors, id, now, limit, next) != errors <==>
      exists i: nat :: Find(errors, id, 0) == Some(i)
        && !errors[i].resolved && errors[i].retryableType && errors[i].retryCount < errors[i].maxRetries
        && (errors[i].nextRetryAt == None || errors[i].nextRetryAt.value <= now)
  {
    var i := Find(errors, id, 0);
    if i.Some? && Retryable(errors[i.value], now) {
      assert AfterRetry(errors, id, now, limit, next)[i.value].retryCount == errors[i.value].retryCount + 1;
    }
  }

  /** Resolving marks the first error under the identifier, and no later retry of it is let
      through at any time; every other error is as before. */
  lemma ResolvedIsNotRetried(errors: seq<SyncError>, id: string, i: nat, now: int, limit: int, next: int)
    requires Find(errors, id, 0) == Some(i)
    ensures var after := AfterResolve(errors, id);
      && after[i].resolved && AfterRetry(after, id, now, limit, next) == after
      && |after| == |errors| && (forall j :: 0 <= j < |errors| && j != i ==> after[j] == errors[j])
  {
    FoundAgain(errors, id, i, errors[i].(resolved := true));
  }

  /** Some stored error under `id` is not resolved. */
  ghost predicate Unresolved(errors: seq<SyncError>, id: string) {
    exists i :: 0 <= i < |errors| && errors[i].id == id && !errors[i].resolved
  }

  lemma UpdateKeepsUnresolved(errors: seq<SyncError>, j: nat, e: SyncError, id: string)
    requires Unresolved(errors, id) && j < |errors| && e.id == errors[j].id && (errors[j].id == id ==> e.resolved == errors[j].resolved)
    ensures Unresolved(errors[j := e], id)
  {
    var i :| 0 <= i < |errors| && errors[i].id == id && !errors[i].resolved;
    assert errors[j := e][i].id == id && !errors[j := e][i].resolved;
  }

  lemma StepKeepsUnresolved(errors: seq<SyncError>, step: Step, id: string)
    requires Unresolved(errors, id) && step != Resolve(id)
    ensures Unresolved(Next(errors, step), id)
  {
    var i :| 0 <= i < |errors| && errors[i].id == id && !errors[i].resolved;
    match step
    case Record(_, _, _, _) =>
      assert Next(errors, step)[i] == errors[i];
    case Clear(cutoff) =>
      assert errors[i] in errors && errors[i] in AfterClear(errors, cutoff);
      var k :| 0 <= k < |AfterClear(errors, cutoff)| && AfterClear(errors, cutoff)[k] == errors[i];
    case Resolve(other) =>
      var j := Find(errors, other, 0);
      if j.Some? {
        UpdateKeepsUnresolved(errors, j.value, errors[j.value].(resolved := true), id);
      }
    case Retry(other, now, limit, next) =>
      var j := Find(errors, other, 0);
      if j.Some? {
        UpdateKeepsUnresolved(errors, j.value, Retried(errors[j.value], limit, next), id);
      }
  }

  /** Over every run: an error that is not resolved stays until somebody resolves it,
      however often resolved errors are cleared. */
  lemma {:induction false} UnresolvedStays(errors: seq<SyncError>, run: seq<Step>, id: string)
    requires Unresolved(errors, id) && Resolve(id) !in run
    ensures Unresolved(Final(errors, run), id)
    decreases |run|
  {
    if run != [] {
      StepKeepsUnresolved(errors, run[0], id);
      UnresolvedStays(Next(errors, run[0]), run[1..], id);
    }
  }

  /** Clearing takes away the resolved errors up to the cutoff and no others. */
  lemma ClearsExactly(errors: seq<SyncError>, cutoff: int, e: SyncError)
    ensures e in AfterClear(errors, cutoff) <==> e in errors && !(e.resolved && e.timestamp <= cutoff)
  {
  }

  lemma FoundAgain(errors: seq<SyncError>, id: string, i: nat, e: SyncError)
    requires Find(errors, id, 0) == Some(i) && e.id == id
    ensures Find(errors[i := e], id, 0) == Some(i)
  {
    assert forall k :: 0 <= k < |errors| ==> errors[i := e][k].id == errors[k].id;
  }

  // -------------------------------------------------------------- the bound is reached

  /** Retries of `id` under one configured limit, by a clock that reads `from` at first and
      never runs backwards; the waits are `delays(k)`, `delays(k + 1)` and so on. */
  ghost predicate OnlyRetries(run: seq<Step>, id: string, limit: int, from: int, delays: nat -> nat, k: nat)
    decreases |run|
  {
    run == [] ||
    (&& run[0].Retry? && run[0].id == id && run[0].limit == limit
     && run[0].now >= from && run[0].next == run[0].now + delays(k)
     && OnlyRetries(run[1..], id, limit, run[0].now, delays, k + 1))
  }

  predicate Open(errors: seq<SyncError>, id: string) {
    var i := Find(errors, id, 0);
    i.Some? && !errors[i.value].resolved && errors[i.value].retryableType
  }

  function FirstRemaining(errors: seq<SyncError>, id: string): nat
    requires Open(errors, id)
  {
    Remaining(errors[Find(errors, id, 0).value])
  }

  lemma RetryUsesOne(errors: seq<SyncError>, id: string, limit: int, from: int, delay: nat) returns (step: Step)
    requires Open(errors, id) && FirstRemaining(errors, id) > 0
    ensures step.Retry? && step.id == id && step.limit == limit && step.now >= from && step.next == step.now + delay
    ensures IsAccepted(errors, step, id)
    ensures var after := Next(errors, step);
      Open(after, id) && FirstRemaining(after, id) == FirstRemaining(errors, id) - 1
  {
    var i := Find(errors, id, 0).value;
    var at := errors[i].nextRetryAt;
    var now := if at.Some? && at.value > from then at.value else from;
    step := Retry(id, now, limit, now + delay);
    FoundAgain(errors, id, i, Retried(errors[i], limit, now + delay));
    assert Next(errors, step)[i].retryCount == errors[i].retryCount + 1;
  }

  /** Under every configured limit, any backoff and from any reading of the clock on: some
      run of retries alone is let through as often as the error's own limit allows. */
  lemma {:induction false} BoundIsReached(errors: seq<SyncError>, id: string, limit: int, from: int, delays: nat -> nat, k: nat)
    returns (run: seq<Step>)
    requires Open(errors, id)
    ensures OnlyRetries(run, id, limit, from, delays, k)
    ensures |run| == Accepted(errors, run, id) == FirstRemaining(errors, id)
    decreases FirstRemaining(errors, id)
  {
    if FirstRemaining(errors, id) == 0 {
      run := [];
    } else {
      var step := RetryUsesOne(errors, id, limit, from, delays(k));
      var rest := BoundIsReached(Next(errors, step), id, limit, step.now, delays, k + 1);
      run := [step] + rest;
      assert run[0] == step && run[1..] == rest;
    }
  }

  /** An error recorded under a new identifier, and three retries of it under a configured
      limit of one. */
  lemma LimitIsPassed(delays: nat -> nat) returns (run: seq<Step>)
    ensures var recorded := Next([], Record("e", 0, true, 300));
      && recorded == [SyncError("e", 0, true, 0, 3, Some(300), false)]
      && OnlyRetries(run, "e", 1, 0, delays, 0) && |run| == Accepted(recorded, run, "e") == 3
  {
    var recorded := Next([], Record("e", 0, true, 300));
    assert recorded == [SyncError("e", 0, true, 0, 3, Some(300), false)];
    assert Find(recorded, "e", 0) == Some(0);
    run := BoundIsReached(recorded, "e", 1, 0, delays, 0);
  }
}
