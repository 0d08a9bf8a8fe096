/** The methods of the state manager that change or search the mapping table.  Go
    ranges over a map in no fixed order, so every such loop picks keys arbitrarily. */
module StateManager {
  import opened Collections
  import opened Wrappers
  import opened MappingStore

  datatype BulkOperation =
    | BulkCreate(mappings: seq<Mapping>, options: Options)
    | BulkUpdate
    | BulkDelete(ids: seq<string>)
    | BulkSyncStatus(ids: seq<string>, status: string)
    | BulkUnknown

  datatype OperationResult = OperationResult(mappingID: string, success: bool, skipped: bool)

  datatype BulkResult = BulkResult(
    totalProcessed: nat, successful: nat, failed: nat, skipped: nat,
    results: seq<OperationResult>, errors: nat)

  /** The table steps a bulk operation amounts to; bulk update is empty in the source. */
  ghost function StepsOf(op: BulkOperation): seq<Step> {
    match op
    case BulkCreate(mappings, options) => seq(|mappings|, i requires 0 <= i < |mappings| => Create(mappings[i], options))
    case BulkDelete(ids) => seq(|ids|, i requires 0 <= i < |ids| => Delete(ids[i]))
    case BulkSyncStatus(ids, status) => seq(|ids|, i requires 0 <= i < |ids| => SetStatus(ids[i], status))
    case _ => []
  }

  ghost function AllSteps(ops: seq<BulkOperation>): seq<Step> {
    if ops == [] then [] else StepsOf(ops[0]) + AllSteps(ops[1..])
  }

  /** What is reported about one step: a duplicate or an absent mapping is skipped. */
  ghost function ReportOf(store: Store, step: Step): OperationResult {
    var outcome := StepOutcome(store, step);
    var id := match step
      case Create(m, _) => if outcome == Done then Identified(m).id else m.id
      case Delete(id) => id
      case SetStatus(id, _) => id
      case _ => "";
    OperationResult(id, outcome == Done, outcome == Duplicate || outcome == NotFound)
  }

  ghost function Reports(store: Store, steps: seq<Step>): seq<OperationResult>
    decreases |steps|
  {
    if steps == [] then [] else [ReportOf(store, steps[0])] + Reports(Apply(store, steps[0]), steps[1..])
  }

  lemma {:induction false} RunConcat(store: Store, first: seq<Step>, second: seq<Step>)
    ensures Run(store, first + second) == Run(Run(store, first), second)
    decreases |first|
  {
    if first == [] {
      assert first + second == second;
    } else {
      var both := first + second;
      assert both[0] == first[0] && both[1..] == first[1..] + second;
      RunConcat(Apply(store, first[0]), first[1..], second);
    }
  }

  lemma {:induction false} ReportsConcat(store: Store, first: seq<Step>, second: seq<Step>)
    ensures Reports(store, first + second) == Reports(store, first) + Reports(Run(store, first), second)
    decreases |first|
  {
    if first == [] {
      assert first + second == second;
    } else {
      var both := first + second;
      assert both[0] == first[0] && both[1..] == first[1..] + second;
      ReportsConcat(Apply(store, first[0]), first[1..], second);
    }
  }

  lemma {:induction false} ReportsLength(store: Store, steps: seq<Step>)
    ensures |Reports(store, steps)| == |steps|
    decreases |steps|
  {
    if steps != [] {
      ReportsLength(Apply(store, steps[0]), steps[1..]);
    }
  }

  /** Step `i` of a bulk operation finds the table that the steps before it left, and its
      report tells of it. */
  lemma {:induction false} ReportAt(store: Store, steps: seq<Step>, i: nat)
    requires i < |steps|
    ensures |Reports(store, steps)| == |steps| && Reports(store, steps)[i] == ReportOf(Run(store, steps[..i]), steps[i])
    decreases |steps|
  {
    ReportsLength(store, steps);
    if i == 0 {
      assert steps[..0] == [];
    } else {
      ReportAt(Apply(store, steps[0]), steps[1..], i - 1);
      assert steps[..i][1..] == steps[1..][..i - 1] && steps[..i][0] == steps[0];
    }
  }

  ghost function Statuses(ids: seq<string>, status: string): (steps: seq<Step>)
    ensures |steps| == |ids| && forall i :: 0 <= i < |ids| ==> steps[i] == SetStatus(ids[i], status)
  {
    StepsOf(BulkSyncStatus(ids, status))
  }

  lemma StatusesRest(ids: seq<string>, status: string)
    requires ids != []
    ensures Statuses(ids, status)[1..] == Statuses(ids[1..], status)
  {
  }

  lemma {:induction false} BulkStatusTable(store: Store, ids: seq<string>, status: string)
    ensures var after := Run(store, Statuses(ids, status));
      after.Keys == store.Keys
      && forall k :: k in store ==> after[k] == if k in ids then store[k].(syncStatus := status) else store[k]
    decreases |ids|
  {
    if ids != [] {
      StatusesRest(ids, status);
      BulkStatusTable(Apply(store, SetStatus(ids[0], status)), ids[1..], status);
      assert ids == [ids[0]] + ids[1..];
    }
  }

  lemma {:induction false} BulkStatusReports(store: Store, ids: seq<string>, status: string)
    ensures var reported := Reports(store, Statuses(ids, status));
      |reported| == |ids| && forall i :: 0 <= i < |ids| ==> reported[i] == OperationResult(ids[i], ids[i] in store, ids[i] !in store)
    decreases |ids|
  {
    if ids != [] {
      var next := Apply(store, SetStatus(ids[0], status));
      assert next.Keys == store.Keys;
      StatusesRest(ids, status);
      BulkStatusReports(next, ids[1..], status);
    }
  }

  /** Setting a status in bulk: every stored mapping of the list has the status, all others
      are as before, and each is reported done exactly if it is stored, and skipped
      otherwise. */
  lemma BulkStatusMeans(store: Store, ids: seq<string>, status: string)
    ensures var steps := StepsOf(BulkSyncStatus(ids, status));
      var after, reported := Run(store, steps), Reports(store, steps);
      && after.Keys == store.Keys
      && (forall k :: k in store ==> after[k] == if k in ids then store[k].(syncStatus := status) else store[k])
      && |reported| == |ids|
      && forall i :: 0 <= i < |ids| ==> reported[i] == OperationResult(ids[i], ids[i] in store, ids[i] !in store)
  {
    BulkStatusTable(store, ids, status);
    BulkStatusReports(store, ids, status);
  }

  /** Deleting in bulk: nothing but mappings of the list is taken out and nothing is changed;
      one that is left was reported each time as neither deleted nor skipped, and then
      some mapping depended on it. */
  lemma {:induction false} BulkDeleteMeans(store: Store, ids: seq<string>)
    ensures var steps := StepsOf(BulkDelete(ids));
      && |steps| == |ids| == |Reports(store, steps)|
      && Run(store, steps).Keys <= store.Keys
      && (forall k :: k in Run(store, steps) ==> Run(store, steps)[k] == store[k])
      && (forall k :: k in store && k !in ids ==> k in Run(store, steps))
      && (forall i :: 0 <= i < |ids| ==> Reports(store, steps)[i].mappingID == ids[i])
      && (forall i :: 0 <= i < |ids| ==>
            (Reports(store, steps)[i].success || Reports(store, steps)[i].skipped ==> ids[i] !in Run(store, steps)))
      && (forall i :: 0 <= i < |ids| && Reports(store, steps)[i].success ==> ids[i] in store)
    decreases |ids|
  {
    var steps := StepsOf(BulkDelete(ids));
    ReportsLength(store, steps);
    if ids != [] {
      var rest := ids[1..];
      var next := Apply(store, steps[0]);
      assert steps[1..] == StepsOf(BulkDelete(rest));
      BulkDeleteMeans(next, rest);
      assert ids == [ids[0]] + rest;
      assert Reports(store, steps) == [ReportOf(store, steps[0])] + Reports(next, steps[1..]);
    }
  }

  /** A mapping that is neither deleted nor skipped had dependents when its turn came. */
  lemma RefusedHasDependents(store: Store, ids: seq<string>, i: nat)
    requires i < |ids|
    ensures var steps := StepsOf(BulkDelete(ids));
      var found := Run(store, steps[..i]);
      |Reports(store, steps)| == |ids| &&
      var r := Reports(store, steps)[i];
      (!r.success && !r.skipped <==> ids[i] in found && exists k :: k in found && ids[i] in found[k].dependencies)
  {
    var steps := StepsOf(BulkDelete(ids));
    ReportAt(store, steps, i);
    var found := Run(store, steps[..i]);
    if k :| k in found && ids[i] in found[k].dependencies {
      assert k in Dependents(found, ids[i]);
    }
    if k :| k in Dependents(found, ids[i]) {
      assert k in found && ids[i] in found[k].dependencies;
    }
  }

  /** Creating in bulk: each mapping reported done is stored under the identifier reported
      when its turn is over, and each reported skipped is taken by another at its turn. */
  lemma BulkCreateMeans(store: Store, mappings: seq<Mapping>, opts: Options, i: nat)
    requires i < |mappings|
    ensures var steps := StepsOf(BulkCreate(mappings, opts));
      var found := Run(store, steps[..i]);
      |Reports(store, steps)| == |mappings| &&
      var r, m := Reports(store, steps)[i], mappings[i];
      && (r.success <==> Acceptable(found, m) && (opts.overwriteExisting || !Taken(found, m)))
      && (r.skipped ==> Taken(found, m))
      && (r.success ==> r.mappingID in Apply(found, steps[i]) && Resource(Apply(found, steps[i])[r.mappingID]) == Resource(m))
  {
    var steps := StepsOf(BulkCreate(mappings, opts));
    ReportAt(store, steps, i);
    var found := Run(store, steps[..i]);
    AddAcceptedIff(found, mappings[i], opts);
    if StepOutcome(found, steps[i]) == Duplicate {
      var k :| k in found && SameResource(found[k], mappings[i]);
      assert Resource(found[k]) == Resource(mappings[i]);
    }
  }

  /** The first `i` steps of a bulk operation are done: what remains leads from the
      current table and report list to the final ones. */
  ghost predicate Progress(steps: seq<Step>, i: nat, store0: Store, r0: BulkResult, store: Store, r: BulkResult)
    requires i <= |steps|
  {
    && Run(store, steps[i..]) == Run(store0, steps)
    && r.results + Reports(store, steps[i..]) == r0.results + Reports(store0, steps)
    && Tallied(r) && r.errors == r0.errors
  }

  lemma Advance(steps: seq<Step>, i: nat, store0: Store, r0: BulkResult,
                store: Store, r: BulkResult, store': Store, r': BulkResult)
    requires i < |steps| && Progress(steps, i, store0, r0, store, r)
    requires store' == Apply(store, steps[i])
    requires Tallied(r') && r'.errors == r.errors && r'.results == r.results + [ReportOf(store, steps[i])]
    ensures Progress(steps, i + 1, store0, r0, store', r')
  {
    FirstOfRest(store, steps, i);
    Regrouped(r.results, [ReportOf(store, steps[i])], Reports(store', steps[i + 1..]));
  }

  lemma FirstOfRest(store: Store, steps: seq<Step>, i: nat)
    requires i < |steps|
    ensures var next := Apply(store, steps[i]);
      && Run(store, steps[i..]) == Run(next, steps[i + 1..])
      && Reports(store, steps[i..]) == [ReportOf(store, steps[i])] + Reports(next, steps[i + 1..])
  {
    var rest := steps[i..];
    assert rest[0] == steps[i] && rest[1..] == steps[i + 1..];
  }

  /** What a list of bulk operations does to the table, and what it reports. */
  ghost function RunBulk(store: Store, ops: seq<BulkOperation>): Store
    decreases |ops|
  {
    if ops == [] then store else RunBulk(Run(store, StepsOf(ops[0])), ops[1..])
  }

  ghost function BulkReports(store: Store, ops: seq<BulkOperation>): seq<OperationResult>
    decreases |ops|
  {
    if ops == [] then []
    else Reports(store, StepsOf(ops[0])) + BulkReports(Run(store, StepsOf(ops[0])), ops[1..])
  }

  /** Bulk calls add no behaviour: they are runs of single steps. */
  lemma {:induction false} BulkIsARun(store: Store, ops: seq<BulkOperation>)
    ensures RunBulk(store, ops) == Run(store, AllSteps(ops))
    ensures BulkReports(store, ops) == Reports(store, AllSteps(ops))
    decreases |ops|
  {
    if ops != [] {
      RunConcat(store, StepsOf(ops[0]), AllSteps(ops[1..]));
      ReportsConcat(store, StepsOf(ops[0]), AllSteps(ops[1..]));
      BulkIsARun(Run(store, StepsOf(ops[0])), ops[1..]);
    }
  }

  ghost predicate BulkProgress(ops: seq<BulkOperation>, i: nat, store0: Store, store: Store, r: BulkResult)
    requires i <= |ops|
  {
    && RunBulk(store, ops[i..]) == RunBulk(store0, ops)
    && r.results + BulkReports(store, ops[i..]) == BulkReports(store0, ops)
  }

  lemma AdvanceBulk(ops: seq<BulkOperation>, i: nat, store0: Store,
                    store: Store, r: BulkResult, store': Store, r': BulkResult)
    requires i < |ops| && BulkProgress(ops, i, store0, store, r)
    requires store' == Run(store, StepsOf(ops[i]))
    requires r'.results == r.results + Reports(store, StepsOf(ops[i]))
    ensures BulkProgress(ops, i + 1, store0, store', r')
  {
    UnfoldBulk(store, ops[i..]);
    assert ops[i..][1..] == ops[i + 1..];
    Associate(r.results, Reports(store, StepsOf(ops[i])), BulkReports(store', ops[i + 1..]));
  }

  lemma UnfoldBulk(store: Store, ops: seq<BulkOperation>)
    requires ops != []
    ensures RunBulk(store, ops) == RunBulk(Run(store, StepsOf(ops[0])), ops[1..])
    ensures BulkReports(store, ops)
         == Reports(store, StepsOf(ops[0])) + BulkReports(Run(store, StepsOf(ops[0])), ops[1..])
  {
  }

  lemma CountOneMore(ops: seq<BulkOperation>, i: nat)
    requires i < |ops|
    ensures multiset(ops[..i + 1])[BulkUnknown] == multiset(ops[..i])[BulkUnknown] + if ops[i].BulkUnknown? then 1 else 0
  {
    assert ops[..i + 1] == ops[..i] + [ops[i]];
  }

  lemma Associate<T>(a: seq<T>, b: seq<T>, c: seq<T>)
    ensures a + (b + c) == (a + b) + c
  {
  }

  ghost function CountSuccess(results: seq<OperationResult>): nat {
    if results == [] then 0
    else CountSuccess(results[..|results| - 1]) + if results[|results| - 1].success then 1 else 0
  }

  ghost function CountSkipped(results: seq<OperationResult>): nat {
    if results == [] then 0
    else CountSkipped(results[..|results| - 1]) + if results[|results| - 1].skipped then 1 else 0
  }

  /** Each counter is the number of reports of its kind, and the kinds add up. */
  ghost predicate Tallied(r: BulkResult) {
    && r.totalProcessed == |r.results| == r.successful + r.failed + r.skipped
    && r.successful == CountSuccess(r.results)
    && r.skipped == CountSkipped(r.results)
  }

  method Report(result: BulkResult, entry: OperationResult) returns (r: BulkResult)
    requires Tallied(result) && !(entry.success && entry.skipped)
    ensures Tallied(r) && r.results == result.results + [entry] && r.errors == result.errors
  {
    r := result.(
      totalProcessed := result.totalProcessed + 1,
      successful := if entry.success then result.successful + 1 else result.successful,
      skipped := if entry.skipped then result.skipped + 1 else result.skipped,
      failed := if entry.success || entry.skipped then result.failed else result.failed + 1,
      results := result.results + [entry]);
    assert r.results[..|r.results| - 1] == result.results;
  }

  /** The switch over the update map's fields; each field is visited once, in any order. */
  method ApplyUpdates(original: Mapping, updates: Updates) returns (m: Mapping, changed: bool)
    ensures m == Updated(original, updates)
    ensures changed <==> HasEffect(original, updates)
  {
    m := original;
    changed := updates.other;
    if Changes(updates.sourceID, m.sourceID) {
      m, changed := m.(sourceID := updates.sourceID.value), true;
    }
    if Changes(updates.targetID, m.targetID) {
      m, changed := m.(targetID := updates.targetID.value), true;
    }
    if Changes(updates.resourceType, m.resourceType) {
      m, changed := m.(resourceType := updates.resourceType.value), true;
    }
    assert changed <==> (updates.other || Changes(updates.sourceID, original.sourceID)
                         || Changes(updates.targetID, original.targetID) || Changes(updates.resourceType, original.resourceType));
    assert m == original.(sourceID := m.sourceID, targetID := m.targetID, resourceType := m.resourceType);
    if Changes(updates.syncStatus, m.syncStatus) {
      m, changed := m.(syncStatus := updates.syncStatus.value), true;
    }
    if Changes(updates.conflictResolution, m.conflictResolution) {
      m, changed := m.(conflictResolution := updates.conflictResolution.value), true;
    }
    if updates.dependencies.Some? {
      m, changed := m.(dependencies := updates.dependencies.value), true;
    }
  }

  class Manager {
    var mappings: Store

    constructor ()
      ensures mappings == map[]
    {
      mappings := map[];
    }

    method ValidateMapping(mapping: Mapping) returns (ok: bool)
      ensures ok <==> Validates(mappings, mapping)
    {
      if !FieldsPresent(mapping) {
        return false;
      }
      for i := 0 to |mapping.dependencies|
        invariant forall j :: 0 <= j < i ==> mapping.dependencies[j] in mappings
      {
        if mapping.dependencies[i] !in mappings {
          return false;
        }
      }
      return true;
    }

    method FindDuplicateMapping(mapping: Mapping) returns (existing: Option<Mapping>)
      ensures existing.Some? <==> Taken(mappings, mapping)
      ensures existing.Some? ==> existing.value in mappings.Values && Resource(existing.value) == Resource(mapping)
    {
      DuplicateIsTaken(mappings, mapping);
      var todo := mappings.Keys;
      while todo != {}
        invariant todo <= mappings.Keys
        invariant forall k :: k in mappings && k !in todo ==> !SameResource(mappings[k], mapping)
        decreases |todo|
      {
        var k :| k in todo;
        todo := todo - {k};
        if SameResource(mappings[k], mapping) {
          return Some(mappings[k]);
        }
      }
      return None;
    }

    method FindMappingDependencies(mappingID: string) returns (dependents: seq<string>)
      ensures forall k :: k in dependents <==> k in Dependents(mappings, mappingID)
    {
      dependents := [];
      var todo := mappings.Keys;
      while todo != {}
        invariant todo <= mappings.Keys
        invariant forall k :: k in dependents <==> k in Dependents(mappings, mappingID) && k !in todo
        decreases |todo|
      {
        var k :| k in todo;
        todo := todo - {k};
        var deps := mappings[k].dependencies;
        var i := 0;
        while i < |deps| && deps[i] != mappingID
          invariant 0 <= i <= |deps|
          invariant mappingID !in deps[..i]
        {
          i := i + 1;
        }
        if i < |deps| {
          dependents := dependents + [k];
        } else {
          assert deps[..i] == deps;
        }
      }
    }

    method AddMapping(mapping: Mapping, options: Options) returns (outcome: Outcome)
      modifies this
      ensures outcome == StepOutcome(old(mappings), Add(mapping, options))
      ensures mappings == Apply(old(mappings), Add(mapping, options))
      ensures outcome == Done <==>
        && Acceptable(old(mappings), mapping)
        && (options.validateDuplicates && !options.overwriteExisting ==> !Taken(old(mappings), mapping))
    {
      AddAcceptedIff(mappings, mapping, options);
      DuplicateIsTaken(mappings, mapping);
      var ok := ValidateMapping(mapping);
      if !ok {
        return Invalid;
      }
      var m := mapping;
      if m.id == "" {
        m := m.(id := GeneratedID(m));
      }
      if options.validateDuplicates {
        var existing := FindDuplicateMapping(m);
        if existing.Some? && !options.overwriteExisting {
          return Duplicate;
        }
      }
      if options.conflictStrategy != "" {
        m := m.(conflictResolution := options.conflictStrategy);
      }
      if options.dependencies.Some? {
        m := m.(dependencies := options.dependencies.value);
      }
      if m.syncStatus == "" {
        m := m.(syncStatus := STATUS_PENDING);
      }
      mappings := mappings[m.id := m];
      return Done;
    }

    method UpdateMapping(mappingID: string, updates: Updates) returns (outcome: Outcome)
      modifies this
      ensures outcome == StepOutcome(old(mappings), Update(mappingID, updates))
      ensures mappings == Apply(old(mappings), Update(mappingID, updates))
    {
      if mappingID !in mappings {
        return NotFound;
      }
      var m, changed := ApplyUpdates(mappings[mappingID], updates);
      if !changed {
        return NoUpdates;
      }
      var ok := ValidateMapping(m);
      if !ok {
        mappings := mappings[mappingID := mappings[mappingID]];
        return Invalid;
      }
      mappings := mappings[mappingID := m];
      return Done;
    }

    method DeleteMapping(mappingID: string) returns (outcome: Outcome)
      modifies this
      ensures outcome == StepOutcome(old(mappings), Delete(mappingID))
      ensures mappings == Apply(old(mappings), Delete(mappingID))
    {
      if mappingID !in mappings {
        return NotFound;
      }
      var dependents := FindMappingDependencies(mappingID);
      if |dependents| > 0 {
        assert dependents[0] in dependents;
        return HasDependents;
      }
      mappings := mappings - {mappingID};
      return Done;
    }

    /** The body of the bulk-create loop. */
    method CreateOne(mapping: Mapping, options: Options, r0: BulkResult) returns (result: BulkResult)
      requires Tallied(r0)
      modifies this
      ensures mappings == Apply(old(mappings), Create(mapping, options))
      ensures Tallied(result) && result.errors == r0.errors
      ensures result.results == r0.results + [ReportOf(old(mappings), Create(mapping, options))]
    {
      var ok := ValidateMapping(mapping);
      if !ok {
        result := Report(r0, OperationResult(mapping.id, false, false));
        return;
      }
      DuplicateIsTaken(mappings, mapping);
      var existing := FindDuplicateMapping(mapping);
      if existing.Some? && !options.overwriteExisting {
        result := Report(r0, OperationResult(mapping.id, false, true));
        return;
      }
      var m := mapping;
      if m.id == "" {
        m := m.(id := GeneratedID(m));
      }
      if options.conflictStrategy != "" {
        m := m.(conflictResolution := options.conflictStrategy);
      }
      mappings := mappings[m.id := m];
      result := Report(r0, OperationResult(m.id, true, false));
    }

    /** The body of the bulk-delete loop. */
    method DeleteOne(id: string, r0: BulkResult) returns (result: BulkResult)
      requires Tallied(r0)
      modifies this
      ensures mappings == Apply(old(mappings), Delete(id))
      ensures Tallied(result) && result.errors == r0.errors
      ensures result.results == r0.results + [ReportOf(old(mappings), Delete(id))]
    {
      if id !in mappings {
        result := Report(r0, OperationResult(id, false, true));
        return;
      }
      var dependents := FindMappingDependencies(id);
      if |dependents| > 0 {
        assert dependents[0] in dependents;
        result := Report(r0, OperationResult(id, false, false));
        return;
      }
      mappings := mappings - {id};
      result := Report(r0, OperationResult(id, true, false));
    }

    /** The body of the bulk-status loop. */
    method SetStatusOne(id: string, status: string, r0: BulkResult) returns (result: BulkResult)
      requires Tallied(r0)
      modifies this
      ensures mappings == Apply(old(mappings), SetStatus(id, status))
      ensures Tallied(result) && result.errors == r0.errors
      ensures result.results == r0.results + [ReportOf(old(mappings), SetStatus(id, status))]
    {
      if id !in mappings {
        result := Report(r0, OperationResult(id, false, true));
        return;
      }
      mappings := mappings[id := mappings[id].(syncStatus := status)];
      result := Report(r0, OperationResult(id, true, false));
    }

    method ProcessBulkCreate(op: BulkOperation, r0: BulkResult) returns (result: BulkResult)
      requires op.BulkCreate? && Tallied(r0)
      modifies this
      ensures mappings == Run(old(mappings), StepsOf(op))
      ensures result.results == r0.results + Reports(old(mappings), StepsOf(op))
      ensures Tallied(result) && result.errors == r0.errors
    {
      result := r0;
      ghost var steps := StepsOf(op);
      var i := 0;
      while i < |op.mappings|
        invariant 0 <= i <= |op.mappings|
        invariant Progress(steps, i, old(mappings), r0, mappings, result)
      {
        ghost var before, reported := mappings, result;
        result := CreateOne(op.mappings[i], op.options, result);
        Advance(steps, i, old(mappings), r0, before, reported, mappings, result);
        i := i + 1;
      }
    }

    method ProcessBulkDelete(op: BulkOperation, r0: BulkResult) returns (result: BulkResult)
      requires op.BulkDelete? && Tallied(r0)
      modifies this
      ensures mappings == Run(old(mappings), StepsOf(op))
      ensures result.results == r0.results + Reports(old(mappings), StepsOf(op))
      ensures Tallied(result) && result.errors == r0.errors
    {
      result := r0;
      ghost var steps := StepsOf(op);
      var i := 0;
      while i < |op.ids|
        invariant 0 <= i <= |op.ids|
        invariant Progress(steps, i, old(mappings), r0, mappings, result)
      {
        ghost var before, reported := mappings, result;
        result := DeleteOne(op.ids[i], result);
        Advance(steps, i, old(mappings), r0, before, reported, mappings, result);
        i := i + 1;
      }
    }

    method ProcessBulkSyncStatus(op: BulkOperation, r0: BulkResult) returns (result: BulkResult)
      requires op.BulkSyncStatus? && Tallied(r0)
      modifies this
      ensures mappings == Run(old(mappings), StepsOf(op))
      ensures result.results == r0.results + Reports(old(mappings), StepsOf(op))
      ensures Tallied(result) && result.errors == r0.errors
    {
      result := r0;
      ghost var steps := StepsOf(op);
      var i := 0;
      while i < |op.ids|
        invariant 0 <= i <= |op.ids|
        invariant Progress(steps, i, old(mappings), r0, mappings, result)
      {
        ghost var before, reported := mappings, result;
        result := SetStatusOne(op.ids[i], op.status, result);
        Advance(steps, i, old(mappings), r0, before, reported, mappings, result);
        i := i + 1;
      }
    }

    method BulkMappingOperations(operations: seq<BulkOperation>) returns (result: BulkResult)
      modifies this
      ensures mappings == RunBulk(old(mappings), operations)
      ensures result.results == BulkReports(old(mappings), operations)
      ensures Tallied(result) && result.errors == multiset(operations)[BulkUnknown]
    {
      result := BulkResult(0, 0, 0, 0, [], 0);
      var i := 0;
      while i < |operations|
        invariant 0 <= i <= |operations|
        invariant BulkProgress(operations, i, old(mappings), mappings, result)
        invariant Tallied(result) && result.errors == multiset(operations[..i])[BulkUnknown]
      {
        ghost var before, reported := mappings, result;
        result := ProcessOne(operations[i], result);
        AdvanceBulk(operations, i, old(mappings), before, reported, mappings, result);
        CountOneMore(operations, i);
        i := i + 1;
      }
      assert operations[..i] == operations;
    }

    /** The dispatch on one bulk operation's name. */
    method ProcessOne(op: BulkOperation, r0: BulkResult) returns (result: BulkResult)
      requires Tallied(r0)
      modifies this
      ensures mappings == Run(old(mappings), StepsOf(op))
      ensures result.results == r0.results + Reports(old(mappings), StepsOf(op))
      ensures Tallied(result) && result.errors == r0.errors + if op.BulkUnknown? then 1 else 0
    {
      match op {
        case BulkCreate(_, _) => result := ProcessBulkCreate(op, r0);
        case BulkUpdate => result := r0;
        case BulkDelete(_) => result := ProcessBulkDelete(op, r0);
        case BulkSyncStatus(_, _) => result := ProcessBulkSyncStatus(op, r0);
        case BulkUnknown => result := r0.(errors := r0.errors + 1);
      }
    }

    method CleanupOrphanedMappings() returns (orphanedIDs: seq<string>)
      modifies this
      ensures mappings == Apply(old(mappings), Cleanup)
      ensures forall k :: k in orphanedIDs <==> k in old(mappings) && IsOrphaned(old(mappings)[k])
      ensures Sound(old(mappings)) ==> orphanedIDs == [] && mappings == old(mappings)
    {
      orphanedIDs := [];
      var all := mappings;
      var todo := all.Keys;
      while todo != {}
        invariant todo <= all.Keys && all == old(mappings)
        invariant mappings == map k | k in all && (k in todo || !IsOrphaned(all[k])) :: all[k]
        invariant forall k :: k in orphanedIDs <==> k in all && k !in todo && IsOrphaned(all[k])
        decreases |todo|
      {
        var k :| k in todo;
        todo := todo - {k};
        if IsOrphaned(all[k]) {
          orphanedIDs := orphanedIDs + [k];
          mappings := mappings - {k};
        }
      }
      assert orphanedIDs != [] ==> orphanedIDs[0] in orphanedIDs;
    }

    method ResolveConflicts() returns (resolvedIDs: seq<string>)
      modifies this
      ensures mappings == Apply(old(mappings), Resolve)
      ensures forall k :: k in resolvedIDs <==> k in old(mappings) && Resolvable(old(mappings)[k])
    {
      resolvedIDs := [];
      var all := mappings;
      var todo := all.Keys;
      while todo != {}
        invariant todo <= all.Keys && all == old(mappings) && mappings.Keys == all.Keys
        invariant forall k :: k in all ==>
          mappings[k] == if k in todo then all[k] else Resolved(all[k])
        invariant forall k :: k in resolvedIDs <==> k in all && k !in todo && Resolvable(all[k])
        decreases |todo|
      {
        var k :| k in todo;
        todo := todo - {k};
        if Resolvable(mappings[k]) {
          mappings := mappings[k := mappings[k].(syncStatus := STATUS_PENDING)];
          resolvedIDs := resolvedIDs + [k];
        }
      }
    }
  }
}
