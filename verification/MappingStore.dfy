/** The resource-mapping table of the state manager: guarded add, update and delete,
    bulk operations, conflict resolution and the orphan cleanup.  Timestamps and
    metadata are not modelled. */
module MappingStore {
  import opened Collections
  import opened Wrappers
  import opened DependencyGraph
  import TopologicalSort

  const STATUS_PENDING := "pending"
  const STATUS_CONFLICT := "conflict"
  const STRATEGY_MANUAL := "manual"

  datatype Mapping = Mapping(
    id: string, sourceID: string, targetID: string, resourceType: string,
    sourceInstance: string, targetInstance: string,
    syncStatus: string, conflictResolution: string, dependencies: seq<string>)

  type Store = map<string, Mapping>

  /** `dependencies` is `None` for a nil list: the option was not given. */
  datatype Options = Options(
    overwriteExisting: bool, validateDuplicates: bool,
    conflictStrategy: string, dependencies: Option<seq<string>>)

  /** A field is `None` when the caller's update map lacks it; `other` stands for a
      `metadata` or `last_synced` entry, which always counts as an update. */
  datatype Updates = Updates(
    sourceID: Option<string>, targetID: Option<string>, resourceType: Option<string>,
    syncStatus: Option<string>, conflictResolution: Option<string>,
    dependencies: Option<seq<string>>, other: bool)

  datatype Outcome =
    | Done | Invalid | Duplicate | NotFound | NoUpdates | HasDependents

  // ---------------------------------------------------------------- specification

  predicate FieldsPresent(m: Mapping) {
    m.sourceID != "" && m.targetID != "" && m.resourceType != "" && m.sourceInstance != "" && m.targetInstance != ""
  }

  predicate Validates(store: Store, m: Mapping) {
    FieldsPresent(m) && forall d :: d in m.dependencies ==> d in store
  }

  predicate SameResource(a: Mapping, b: Mapping) {
    && a.resourceType == b.resourceType && a.sourceInstance == b.sourceInstance
    && a.targetInstance == b.targetInstance && a.sourceID == b.sourceID
  }

  predicate HasDuplicate(store: Store, m: Mapping) {
    exists k :: k in store && SameResource(store[k], m)
  }

  /** The identifiers of the mappings that list `id` as a dependency. */
  function Dependents(store: Store, id: string): set<string> {
    set k | k in store && id in store[k].dependencies
  }

  function GeneratedID(m: Mapping): string {
    m.resourceType + "_" + m.sourceInstance + "_" + m.targetInstance + "_" + m.sourceID
  }

  function Identified(m: Mapping): Mapping {
    if m.id == "" then m.(id := GeneratedID(m)) else m
  }

  function WithStrategy(m: Mapping, strategy: string): Mapping {
    if strategy != "" then m.(conflictResolution := strategy) else m
  }

  function Prepared(m: Mapping, opts: Options): Mapping {
    var m := WithStrategy(Identified(m), opts.conflictStrategy);
    var m := if opts.dependencies.Some? then m.(dependencies := opts.dependencies.value) else m;
    if m.syncStatus == "" then m.(syncStatus := STATUS_PENDING) else m
  }

  function Pick<T>(update: Option<T>, current: T): T {
    if update.Some? then update.value else current
  }

  predicate Changes<T(==)>(update: Option<T>, current: T) {
    update.Some? && update.value != current
  }

  function Updated(m: Mapping, u: Updates): Mapping {
    m.(sourceID := Pick(u.sourceID, m.sourceID), targetID := Pick(u.targetID, m.targetID),
       resourceType := Pick(u.resourceType, m.resourceType), syncStatus := Pick(u.syncStatus, m.syncStatus),
       conflictResolution := Pick(u.conflictResolution, m.conflictResolution),
       dependencies := Pick(u.dependencies, m.dependencies))
  }

  predicate HasEffect(m: Mapping, u: Updates) {
    || Changes(u.sourceID, m.sourceID) || Changes(u.targetID, m.targetID)
    || Changes(u.resourceType, m.resourceType) || Changes(u.syncStatus, m.syncStatus)
    || Changes(u.conflictResolution, m.conflictResolution) || u.dependencies.Some? || u.other
  }

  predicate IsOrphaned(m: Mapping) {
    m.sourceID == "" || m.targetID == ""
  }

  predicate Resolvable(m: Mapping) {
    m.syncStatus == STATUS_CONFLICT && m.conflictResolution != STRATEGY_MANUAL
  }

  function Resolved(m: Mapping): Mapping {
    if Resolvable(m) then m.(syncStatus := STATUS_PENDING) else m
  }

  /** One change of the table made under the manager's lock; a bulk operation is a
      sequence of `Create`, `Delete` and `SetStatus` steps. */
  datatype Step =
    | Add(mapping: Mapping, options: Options)
    | Create(mapping: Mapping, options: Options)
    | Update(id: string, updates: Updates)
    | Delete(id: string)
    | SetStatus(id: string, status: string)
    | Resolve
    | Cleanup

  function StepOutcome(store: Store, step: Step): Outcome {
    match step
    case Add(m, opts) =>
      if !Validates(store, m) then Invalid
      else if opts.validateDuplicates && HasDuplicate(store, Identified(m)) && !opts.overwriteExisting then Duplicate
      else Done
    case Create(m, opts) =>
      if !Validates(store, m) then Invalid
      else if HasDuplicate(store, m) && !opts.overwriteExisting then Duplicate
      else Done
    case Update(id, u) =>
      if id !in store then NotFound
      else if !HasEffect(store[id], u) then NoUpdates
      else if !Validates(store, Updated(store[id], u)) then Invalid
      else Done
    case Delete(id) =>
      if id !in store then NotFound
      else if Dependents(store, id) != {} then HasDependents
      else Done
    case SetStatus(id, _) => if id !in store then NotFound else Done
    case Resolve => Done
    case Cleanup => Done
  }

  function Apply(store: Store, step: Step): Store {
    if StepOutcome(store, step) != Done then store
    else
      match step
      case Add(m, opts) => store[Identified(m).id := Prepared(m, opts)]
      case Create(m, opts) => store[Identified(m).id := WithStrategy(Identified(m), opts.conflictStrategy)]
      case Update(id, u) => store[id := Updated(store[id], u)]
      case Delete(id) => store - {id}
      case SetStatus(id, status) => store[id := store[id].(syncStatus := status)]
      case Resolve =>
        map k | k in store :: Resolved(store[k])
      case Cleanup => map k | k in store && !IsOrphaned(store[k]) :: store[k]
  }

  function Run(store: Store, steps: seq<Step>): Store
    decreases |steps|
  {
    if steps == [] then store else Run(Apply(store, steps[0]), steps[1..])
  }

  // ------------------------------------------------------------- referential soundness

  /** Every key is the identifier stored under it, mandatory fields are present, and
      every dependency names a stored mapping. */
  ghost predicate Sound(store: Store) {
    forall k :: k in store ==>
      && store[k].id == k && k != ""
      && FieldsPresent(store[k])
      && forall d :: d in store[k].dependencies ==> d in store
  }

  /** The mapping as given is valid, and no duplicate stands in its way. */
  predicate AddPassesGuards(store: Store, m: Mapping, opts: Options) {
    Validates(store, m) && (!opts.validateDuplicates || opts.overwriteExisting || !HasDuplicate(store, Identified(m)))
  }

  /** An add that overrides dependencies escapes validation, so soundness survives it
      exactly when the listed mappings are stored, or are the added mapping itself. */
  ghost predicate OverridesStored(store: Store, step: Step) {
    step.Add? && step.options.dependencies.Some? && AddPassesGuards(store, step.mapping, step.options) ==>
      forall d :: d in step.options.dependencies.value ==> d in store || d == Identified(step.mapping).id
  }

  /** Storing a mapping in a sound table. */
  lemma StoredIsSoundIff(store: Store, m: Mapping)
    requires Sound(store) && m.id != "" && FieldsPresent(m)
    ensures Sound(store[m.id := m]) <==> forall d :: d in m.dependencies ==> d in store || d == m.id
  {
    var after := store[m.id := m];
    assert after[m.id] == m;
    assert forall k :: k in after <==> k in store || k == m.id;
  }

  lemma AddKeepsSoundIff(store: Store, step: Step)
    requires Sound(store) && step.Add? && StepOutcome(store, step) == Done
    ensures Sound(Apply(store, step)) <==> OverridesStored(store, step)
  {
    var m := Prepared(step.mapping, step.options);
    assert m.id == Identified(step.mapping).id != "";
    StoredIsSoundIff(store, m);
    assert m.dependencies == if step.options.dependencies.Some? then step.options.dependencies.value else step.mapping.dependencies;
  }

  lemma DeleteKeepsSound(store: Store, id: string)
    requires Sound(store) && StepOutcome(store, Delete(id)) == Done
    ensures Sound(Apply(store, Delete(id)))
  {
    var after := Apply(store, Delete(id));
    forall k, d | k in after && d in after[k].dependencies ensures d in after {
      assert d == id ==> k in Dependents(store, d);
    }
  }

  lemma StepKeepsSoundIff(store: Store, step: Step)
    requires Sound(store)
    ensures Sound(Apply(store, step)) <==> OverridesStored(store, step)
  {
    if StepOutcome(store, step) == Done {
      match step
      case Add(_, _) => AddKeepsSoundIff(store, step);
      case Create(m, opts) => StoredIsSoundIff(store, WithStrategy(Identified(m), opts.conflictStrategy));
      case Update(id, u) => StoredIsSoundIff(store, Updated(store[id], u));
      case Delete(id) => DeleteKeepsSound(store, id);
      case SetStatus(id, status) => StoredIsSoundIff(store, store[id].(syncStatus := status));
      case Resolve =>
      case Cleanup => assert Apply(store, step) == store;
    }
  }

  /** An add to the empty store that is accepted with a dependency on nothing stored. */
  lemma OverrideBreaksSoundness() returns (step: Step)
    ensures Sound(map[]) && StepOutcome(map[], step) == Done && !Sound(Apply(map[], step))
  {
    var m := Mapping("m", "source", "target", "robot", "here", "there", "", "", []);
    step := Add(m, Options(false, true, "", Some(["x"])));
    StepKeepsSoundIff(map[], step);
    assert "x" in step.options.dependencies.value;
  }

  ghost predicate NoOverride(step: Step) {
    step.Add? ==> step.options.dependencies.None?
  }

  lemma {:induction false} RunKeepsSound(store: Store, steps: seq<Step>)
    requires Sound(store) && forall i :: 0 <= i < |steps| ==> NoOverride(steps[i])
    ensures Sound(Run(store, steps))
    decreases |steps|
  {
    if steps != [] {
      StepKeepsSoundIff(store, steps[0]);
      RunKeepsSound(Apply(store, steps[0]), steps[1..]);
    }
  }

  /** Over all runs from the empty store the table is sound, so the orphan cleanup
      finds nothing to remove. */
  lemma EveryRunIsSound(steps: seq<Step>)
    requires forall i :: 0 <= i < |steps| ==> NoOverride(steps[i])
    ensures Sound(Run(map[], steps))
    ensures forall k :: k in Run(map[], steps) ==> !IsOrphaned(Run(map[], steps)[k])
    ensures Apply(Run(map[], steps), Cleanup) == Run(map[], steps)
  {
    RunKeepsSound(map[], steps);
    var store := Run(map[], steps);
    assert Apply(store, Cleanup) == store;
  }

  // ---------------------------------------------------------------- duplicate mappings

  /** The add would otherwise be stored: fields, dependencies. */
  ghost predicate Acceptable(store: Store, m: Mapping) {
    && m.sourceID != "" && m.targetID != "" && m.resourceType != "" && m.sourceInstance != "" && m.targetInstance != ""
    && forall d :: d in m.dependencies ==> d in store
  }

  /** What a mapping is of: a duplicate is one of the same. */
  function Resource(m: Mapping): (string, string, string, string) {
    (m.resourceType, m.sourceInstance, m.targetInstance, m.sourceID)
  }

  /** Some stored mapping agrees with `m` in type, both instances and source identifier. */
  ghost predicate Taken(store: Store, m: Mapping) {
    exists k :: k in store && Resource(store[k]) == Resource(m)
  }

  /** An add is accepted exactly when it is acceptable and, if it validates duplicates and
      does not overwrite, nothing agrees with it in all four fields; a bulk create always
      validates duplicates.  What is not acceptable is invalid, duplicate or not. */
  lemma AddAcceptedIff(store: Store, m: Mapping, opts: Options)
    ensures StepOutcome(store, Add(m, opts)) == Done
       <==> Acceptable(store, m) && (opts.validateDuplicates && !opts.overwriteExisting ==> !Taken(store, m))
    ensures StepOutcome(store, Create(m, opts)) == Done
       <==> Acceptable(store, m) && (!opts.overwriteExisting ==> !Taken(store, m))
    ensures StepOutcome(store, Add(m, opts)) == Invalid <==> !Acceptable(store, m)
    ensures StepOutcome(store, Create(m, opts)) == Invalid <==> !Acceptable(store, m)
    ensures StepOutcome(store, Add(m, opts)) == Duplicate ==> Taken(store, m)
  {
    DuplicateIsTaken(store, m);
  }

  lemma DuplicateIsTaken(store: Store, m: Mapping)
    ensures HasDuplicate(store, m) <==> Taken(store, m)
    ensures HasDuplicate(store, Identified(m)) <==> Taken(store, m)
  {
    assert Resource(Identified(m)) == Resource(m);
    if k :| k in store && Resource(store[k]) == Resource(m) {
      assert SameResource(store[k], m) && SameResource(store[k], Identified(m));
    }
    assert forall k :: k in store && (SameResource(store[k], m) || SameResource(store[k], Identified(m))) ==> Resource(store[k]) == Resource(m);
  }

  /** No two stored mappings agree in all four fields. */
  ghost predicate NoTwins(store: Store) {
    forall j, k :: j in store && k in store && j != k ==> Resource(store[j]) != Resource(store[k])
  }

  /** The mapping that the step writes, and where; `None` when it only takes away or
      changes a status. */
  function Written(store: Store, step: Step): Option<(string, Mapping)> {
    if StepOutcome(store, step) != Done then None
    else
      match step
      case Add(m, opts) => Some((Identified(m).id, Prepared(m, opts)))
      case Create(m, opts) => Some((Identified(m).id, WithStrategy(Identified(m), opts.conflictStrategy)))
      case Update(id, u) => Some((id, Updated(store[id], u)))
      case Delete(_) => None
      case SetStatus(_, _) => None
      case Resolve => None
      case Cleanup => None
  }

  /** Exactly when a step leaves the table without twins: what it writes agrees with no
      other mapping. */
  lemma StepKeepsNoTwinsIff(store: Store, step: Step)
    requires NoTwins(store)
    ensures NoTwins(Apply(store, step))
       <==> (Written(store, step).Some? ==> !Taken(store - {Written(store, step).value.0}, Written(store, step).value.1))
  {
    var after, written := Apply(store, step), Written(store, step);
    if written.Some? {
      WriteKeepsNoTwinsIff(store, written.value.0, written.value.1);
    } else {
      assert forall k :: k in after ==> k in store && Resource(after[k]) == Resource(store[k]);
    }
  }

  lemma WriteKeepsNoTwinsIff(store: Store, id: string, m: Mapping)
    requires NoTwins(store)
    ensures NoTwins(store[id := m]) <==> !Taken(store - {id}, m)
  {
    var after, others := store[id := m], store - {id};
    if Taken(others, m) {
      var k :| k in others && Resource(others[k]) == Resource(m);
      assert k in after && id in after && k != id;
    } else {
      forall j, k | j in after && k in after && j != k ensures Resource(after[j]) != Resource(after[k]) {
        assert j != id ==> j in others;
        assert k != id ==> k in others;
      }
    }
  }

  /** Adds that validate duplicates, creates and adds that do not overwrite, and updates that
      leave the four fields alone. */
  ghost predicate Guarded(step: Step) {
    match step
    case Add(_, opts) => opts.validateDuplicates && !opts.overwriteExisting
    case Create(_, opts) => !opts.overwriteExisting
    case Update(_, u) => u.resourceType.None? && u.sourceID.None?
    case Delete(_) => true
    case SetStatus(_, _) => true
    case Resolve => true
    case Cleanup => true
  }

  lemma GuardedWritesNew(store: Store, step: Step)
    requires NoTwins(store) && Guarded(step) && Written(store, step).Some?
    ensures !Taken(store - {Written(store, step).value.0}, Written(store, step).value.1)
  {
    var (id, m) := Written(store, step).value;
    if step.Add? || step.Create? {
      AddAcceptedIff(store, step.mapping, step.options);
      assert Resource(m) == Resource(step.mapping);
      assert !Taken(store, step.mapping);
      assert forall k :: k in store - {id} ==> k in store && Resource(store[k]) != Resource(m);
    } else {
      assert Resource(m) == Resource(store[id]);
    }
  }

  lemma GuardedKeepsNoTwins(store: Store, step: Step)
    requires NoTwins(store) && Guarded(step)
    ensures NoTwins(Apply(store, step))
  {
    StepKeepsNoTwinsIff(store, step);
    if Written(store, step).Some? {
      GuardedWritesNew(store, step);
    }
  }

  /** A table kept by such steps never holds two mappings that agree in all four fields. */
  lemma {:induction false} GuardedRunHasNoTwins(store: Store, steps: seq<Step>)
    requires NoTwins(store) && forall i :: 0 <= i < |steps| ==> Guarded(steps[i])
    ensures NoTwins(Run(store, steps))
    decreases |steps|
  {
    if steps != [] {
      GuardedKeepsNoTwins(store, steps[0]);
      GuardedRunHasNoTwins(Apply(store, steps[0]), steps[1..]);
    }
  }

  lemma TakenOnceMore(store: Store, id: string, m: Mapping, n: Mapping)
    requires !Taken(store, n)
    ensures Taken(store[id := m], n) <==> Resource(m) == Resource(n)
  {
    var once := store[id := m];
    assert id in once && once[id] == m;
    if k :| k in once && k != id && Resource(once[k]) == Resource(n) {
      assert k in store && Resource(store[k]) == Resource(n);
    }
  }

  /** Two acceptable adds, one after the other: both are accepted exactly when they differ
      in one of the four fields. */
  lemma BothAcceptedIff(store: Store, m: Mapping, n: Mapping, opts: Options)
    requires Acceptable(store, m) && Acceptable(store, n) && !Taken(store, m) && !Taken(store, n)
    requires opts.validateDuplicates && !opts.overwriteExisting
    ensures StepOutcome(store, Add(m, opts)) == Done
    ensures StepOutcome(Apply(store, Add(m, opts)), Add(n, opts)) == Done
       <==> m.resourceType != n.resourceType || m.sourceInstance != n.sourceInstance
            || m.targetInstance != n.targetInstance || m.sourceID != n.sourceID
  {
    AddAcceptedIff(store, m, opts);
    var once := Apply(store, Add(m, opts));
    AddAcceptedIff(once, n, opts);
    TakenOnceMore(store, Identified(m).id, Prepared(m, opts), n);
    assert Acceptable(once, n);
  }

  /** An accepted add loses the mapping stored under its identifier, and no other. */
  lemma AddLosesOnly(store: Store, m: Mapping, opts: Options, k: string)
    requires StepOutcome(store, Add(m, opts)) == Done && k in store
    ensures var after := Apply(store, Add(m, opts));
      k in after && (after[k] == store[k] <==> k != Identified(m).id || store[k] == Prepared(m, opts))
  {
  }

  /** Generated identifiers join the four fields with underscores, so an underscore may
      belong to either neighbour. */
  lemma UnderscoreMoves(m: Mapping, x: string, y: string, z: string)
    ensures GeneratedID(m.(sourceInstance := x + "_" + y, targetInstance := z))
         == GeneratedID(m.(sourceInstance := x, targetInstance := y + "_" + z))
  {
    assert (x + "_" + y) + "_" + z == x + "_" + (y + "_" + z);
    Rejoined(m.resourceType + "_", x + "_" + y, "_" , z, "_" + m.sourceID);
    Rejoined(m.resourceType + "_", x, "_", y + "_" + z, "_" + m.sourceID);
  }

  lemma Rejoined(a: string, x: string, sep: string, z: string, b: string)
    ensures a + x + sep + z + b == a + (x + sep + z) + b
  {
  }

  /** Two different mappings with the same generated identifier: both adds are accepted,
      and the first mapping is lost. */
  lemma GeneratedIdsCollide() returns (m: Mapping, n: Mapping, opts: Options)
    ensures m.id == n.id == "" && opts.validateDuplicates && !opts.overwriteExisting
    ensures m.sourceInstance != n.sourceInstance
    ensures var once := Apply(map[], Add(m, opts));
      var twice := Apply(once, Add(n, opts));
      && StepOutcome(map[], Add(m, opts)) == StepOutcome(once, Add(n, opts)) == Done
      && twice == map[Identified(n).id := Prepared(n, opts)]
  {
    var base := Mapping("", "source", "target", "robot", "", "", "", "", []);
    m := base.(sourceInstance := "a" + "_" + "b", targetInstance := "c");
    n := base.(sourceInstance := "a", targetInstance := "b" + "_" + "c");
    opts := Options(false, true, "", None);
    assert |m.sourceInstance| == 3 && |n.sourceInstance| == 1;
    BothAcceptedIff(map[], m, n, opts);
    UnderscoreMoves(base, "a", "b", "c");
    var id := Identified(n).id;
    assert Identified(m).id == id;
    assert Apply(map[], Add(m, opts)) == map[id := Prepared(m, opts)];
  }

  // ------------------------------------------------------------------ what is written

  /** An accepted update reads back as written: a field it names has the new value, and any
      other field, and every other mapping, is as before. */
  lemma UpdateReadsBack(store: Store, id: string, u: Updates)
    requires StepOutcome(store, Update(id, u)) == Done
    ensures var after := Apply(store, Update(id, u));
      && after.Keys == store.Keys && (forall k :: k in store && k != id ==> after[k] == store[k])
      && var m, old_ := after[id], store[id];
         && m.sourceID == (if u.sourceID.Some? then u.sourceID.value else old_.sourceID)
         && m.targetID == (if u.targetID.Some? then u.targetID.value else old_.targetID)
         && m.resourceType == (if u.resourceType.Some? then u.resourceType.value else old_.resourceType)
         && m.syncStatus == (if u.syncStatus.Some? then u.syncStatus.value else old_.syncStatus)
         && m.conflictResolution == (if u.conflictResolution.Some? then u.conflictResolution.value else old_.conflictResolution)
         && m.dependencies == (if u.dependencies.Some? then u.dependencies.value else old_.dependencies)
         && m.id == old_.id && m.sourceInstance == old_.sourceInstance && m.targetInstance == old_.targetInstance
  {
  }

  /** An update changes the table exactly when it names a stored mapping, says something new
      and leaves the mapping acceptable: a named list of dependencies or other entry always
      counts as new. */
  lemma UpdateAcceptedIff(store: Store, id: string, u: Updates)
    ensures StepOutcome(store, Update(id, u)) == NotFound <==> id !in store
    ensures id in store ==>
      var m := store[id];
      (StepOutcome(store, Update(id, u)) == NoUpdates <==>
        && (u.sourceID == None || u.sourceID.value == m.sourceID) && (u.targetID == None || u.targetID.value == m.targetID)
        && (u.resourceType == None || u.resourceType.value == m.resourceType)
        && (u.syncStatus == None || u.syncStatus.value == m.syncStatus)
        && (u.conflictResolution == None || u.conflictResolution.value == m.conflictResolution)
        && u.dependencies == None && !u.other)
  {
  }

  /** An accepted add reads back as given, under its own identifier if it has one, with the
      option's strategy and dependencies in place of its own, and pending if it had no
      status; a bulk create takes the strategy only. */
  lemma AddReadsBack(store: Store, m: Mapping, opts: Options)
    ensures StepOutcome(store, Add(m, opts)) == Done ==>
      var id := if m.id != "" then m.id else GeneratedID(m);
      Apply(store, Add(m, opts)) == store[id := Mapping(id, m.sourceID, m.targetID, m.resourceType, m.sourceInstance, m.targetInstance,
        if m.syncStatus != "" then m.syncStatus else "pending",
        if opts.conflictStrategy != "" then opts.conflictStrategy else m.conflictResolution,
        if opts.dependencies.Some? then opts.dependencies.value else m.dependencies)]
    ensures StepOutcome(store, Create(m, opts)) == Done ==>
      var id := if m.id != "" then m.id else GeneratedID(m);
      Apply(store, Create(m, opts)) == store[id := Mapping(id, m.sourceID, m.targetID, m.resourceType, m.sourceInstance, m.targetInstance,
        m.syncStatus, if opts.conflictStrategy != "" then opts.conflictStrategy else m.conflictResolution, m.dependencies)]
  {
  }

  /** After the orphan cleanup every mapping left has both identifiers, and none that had
      them is gone or changed. */
  lemma CleanupLeaves(store: Store, k: string)
    ensures var after := Apply(store, Cleanup);
      && (k in after <==> k in store && store[k].sourceID != "" && store[k].targetID != "")
      && (k in after ==> after[k] == store[k])
  {
  }

  /** After resolving, the only conflicts left are those to be resolved by hand; what was in
      conflict otherwise is pending, and nothing else changed. */
  lemma ResolveLeaves(store: Store, k: string)
    requires k in store
    ensures var after := Apply(store, Resolve);
      && after.Keys == store.Keys
      && (after[k].syncStatus == "conflict" <==> store[k].syncStatus == "conflict" && store[k].conflictResolution == "manual")
      && after[k].(syncStatus := store[k].syncStatus) == store[k]
      && (after[k].syncStatus == store[k].syncStatus || after[k].syncStatus == "pending")
  {
  }

  // ------------------------------------------------------------------- emptying a store

  ghost function GraphOf(store: Store): Graph {
    map k | k in store :: store[k].dependencies
  }

  /** Each delete of the sequence is accepted, and nothing is left. */
  ghost predicate Empties(store: Store, ids: seq<string>) {
    if ids == [] then store == map[]
    else StepOutcome(store, Delete(ids[0])) == Done && Empties(Apply(store, Delete(ids[0])), ids[1..])
  }

  ghost predicate Emptiable(store: Store) {
    exists ids :: Empties(store, ids)
  }

  /** The last can go, and then the others from the back. */
  ghost predicate Layered(store: Store, order: seq<string>)
    decreases |order|
  {
    if order == [] then store == map[]
    else
      var last := order[|order| - 1];
      && last in store && Dependents(store, last) == {}
      && Layered(store - {last}, order[..|order| - 1])
  }

  /** `order` lists the keys, and none depends on itself or on a later one. */
  ghost predicate InOrder(g: Graph, order: seq<string>) {
    && Enumerates(order, g.Keys)
    && forall i, j :: 0 <= i <= j < |order| ==> order[j] !in Deps(g, order[i])
  }

  ghost predicate NoneDependsOn(g: Graph, id: string) {
    forall k :: id !in Deps(g, k)
  }

  lemma LastOfOrder(g: Graph, order: seq<string>)
    requires InOrder(g, order) && order != []
    ensures var last := order[|order| - 1]; last in g && NoneDependsOn(g, last)
  {
    var last := order[|order| - 1];
    assert last in Elements(order);
    forall k ensures last !in Deps(g, k) {
      if k in g {
        assert k in Elements(order);
        var i :| 0 <= i < |order| && order[i] == k;
      }
    }
  }

  lemma InitEnumerates(order: seq<string>, keys: set<string>)
    requires Enumerates(order, keys) && order != []
    ensures Enumerates(order[..|order| - 1], keys - {order[|order| - 1]})
  {
    var last, init := order[|order| - 1], order[..|order| - 1];
    assert order == init + [last];
    assert Elements(order) == Elements(init) + {last};
  }

  lemma InitOfOrder(g: Graph, order: seq<string>)
    requires InOrder(g, order) && order != []
    ensures InOrder(g - {order[|order| - 1]}, order[..|order| - 1])
  {
    var last, init := order[|order| - 1], order[..|order| - 1];
    var h := g - {last};
    InitEnumerates(order, g.Keys);
    assert h.Keys == g.Keys - {last};
    forall i, j | 0 <= i <= j < |init| ensures init[j] !in Deps(h, init[i]) {
      assert order[j] !in Deps(g, order[i]);
    }
  }

  lemma OrderOneMore(g: Graph, init: seq<string>, last: string)
    requires last in g && NoneDependsOn(g, last) && InOrder(g - {last}, init)
    ensures InOrder(g, init + [last])
  {
    var order := init + [last];
    assert Elements(order) == Elements(init) + {last};
    forall i, j | 0 <= i <= j < |order| ensures order[j] !in Deps(g, order[i]) {
      if j < |init| {
        assert init[i] in Elements(init);
        assert init[j] !in Deps(g - {last}, init[i]);
      }
    }
  }

  lemma DependentsInGraph(store: Store, id: string)
    ensures Dependents(store, id) == {} <==> NoneDependsOn(GraphOf(store), id)
    ensures GraphOf(store - {id}) == GraphOf(store) - {id}
  {
    forall k ensures id in Deps(GraphOf(store), k) <==> k in Dependents(store, id) {
    }
  }

  /** What layering says of positions: no mapping depends on itself or on a later one. */
  lemma {:induction false} LayeredIffInOrder(store: Store, order: seq<string>)
    ensures Layered(store, order) <==> InOrder(GraphOf(store), order)
    decreases |order|
  {
    if order == [] {
      assert Elements(order) == {};
    } else {
      var last, init := order[|order| - 1], order[..|order| - 1];
      LayeredIffInOrder(store - {last}, init);
      DependentsInGraph(store, last);
      assert order == init + [last];
      if InOrder(GraphOf(store), order) {
        LastOfOrder(GraphOf(store), order);
        InitOfOrder(GraphOf(store), order);
      }
      if Layered(store, order) {
        OrderOneMore(GraphOf(store), init, last);
      }
    }
  }

  /** Deleting in the reverse of `order` is accepted throughout and empties the table
      exactly when the order is layered. */
  lemma {:induction false} ReverseOrderEmptiesIff(store: Store, order: seq<string>)
    ensures Empties(store, Reversed(order)) <==> Layered(store, order)
    decreases |order|
  {
    if order != [] {
      var last, init := order[|order| - 1], order[..|order| - 1];
      ReverseOrderEmptiesIff(store - {last}, init);
      assert Reversed(order)[1..] == Reversed(init);
    }
  }

  /** Taking away a key that nothing depends on neither makes nor breaks a cycle. */
  lemma CyclesAvoidRoots(g: Graph, h: Graph, root: string)
    requires h == g - {root}
    requires forall k :: root !in Deps(g, k)
    ensures Acyclic(g) <==> Acyclic(h)
  {
    forall a, b ensures b in Deps(g, a) && Reaches(g, b, a) ==> b in Deps(h, a) && Reaches(h, b, a) {
      if b in Deps(g, a) && Reaches(g, b, a) {
        var steps: nat :| ReachesIn(g, b, a, steps);
        PathAvoidsRoot(g, h, root, b, a, steps);
      }
    }
    forall a, b ensures b in Deps(h, a) && Reaches(h, b, a) ==> b in Deps(g, a) && Reaches(g, b, a) {
      if b in Deps(h, a) && Reaches(h, b, a) {
        var steps: nat :| ReachesIn(h, b, a, steps);
        SubgraphPath(h, g, b, a, steps);
      }
    }
  }

  lemma {:induction false} PathAvoidsRoot(g: Graph, h: Graph, root: string, a: string, b: string, steps: nat)
    requires h == g - {root}
    requires forall k :: root !in Deps(g, k)
    requires a != root && ReachesIn(g, a, b, steps)
    ensures b != root && ReachesIn(h, a, b, steps)
    decreases steps
  {
    if steps > 0 {
      var c :| c in Deps(g, a) && ReachesIn(g, c, b, steps - 1);
      PathAvoidsRoot(g, h, root, c, b, steps - 1);
      assert c in Deps(h, a);
    }
  }

  lemma {:induction false} SubgraphPath(h: Graph, g: Graph, a: string, b: string, steps: nat)
    requires forall k, d :: d in Deps(h, k) ==> d in Deps(g, k)
    requires ReachesIn(h, a, b, steps)
    ensures ReachesIn(g, a, b, steps)
    decreases steps
  {
    if steps > 0 {
      var c :| c in Deps(h, a) && ReachesIn(h, c, b, steps - 1);
      SubgraphPath(h, g, c, b, steps - 1);
      assert c in Deps(g, a);
    }
  }

  lemma DeleteKeepsCycles(store: Store, id: string)
    requires StepOutcome(store, Delete(id)) == Done
    ensures Acyclic(GraphOf(store)) <==> Acyclic(GraphOf(Apply(store, Delete(id))))
  {
    var g, h := GraphOf(store), GraphOf(Apply(store, Delete(id)));
    assert h == g - {id};
    forall k ensures id !in Deps(g, k) {
      assert id in Deps(g, k) ==> k in Dependents(store, id);
    }
    CyclesAvoidRoots(g, h, id);
  }

  lemma {:induction false} EmptiedWasAcyclic(store: Store, ids: seq<string>)
    requires Empties(store, ids)
    ensures Acyclic(GraphOf(store))
    decreases |ids|
  {
    if ids != [] {
      EmptiedWasAcyclic(Apply(store, Delete(ids[0])), ids[1..]);
      DeleteKeepsCycles(store, ids[0]);
    }
  }

  lemma BeforeIsNotAfter(order: seq<string>, i: nat, j: nat)
    requires Distinct(order) && i <= j < |order|
    ensures !TopologicalSort.Before(order, order[j], order[i])
  {
  }

  /** The depth-first sort of the dependency graph lays an acyclic store out. */
  lemma AcyclicIsLayered(store: Store, range: seq<string>)
    requires Acyclic(GraphOf(store)) && Enumerates(range, GraphOf(store).Keys)
    ensures Layered(store, TopologicalSort.PostOrder(GraphOf(store), range))
  {
    var g := GraphOf(store);
    TopologicalSort.PostOrderIsPermutation(g, range);
    TopologicalSort.AcyclicIsTopological(g, range);
    var order := TopologicalSort.PostOrder(g, range);
    forall i: nat, j: nat | i <= j < |order| ensures order[j] !in Deps(g, order[i]) {
      assert order[j] in Elements(order) && order[i] in Elements(order);
      BeforeIsNotAfter(order, i, j);
    }
    LayeredIffInOrder(store, order);
  }

  /** Exactly when some sequence of accepted deletes empties the table, sound or not: no
      mapping depends on itself, directly or through others. */
  lemma EmptiableIffAcyclic(store: Store)
    ensures Emptiable(store) <==> Acyclic(GraphOf(store))
  {
    if Acyclic(GraphOf(store)) {
      var range := EnumerationExists(GraphOf(store).Keys);
      AcyclicIsLayered(store, range);
      var order := TopologicalSort.PostOrder(GraphOf(store), range);
      ReverseOrderEmptiesIff(store, order);
      assert Empties(store, Reversed(order));
    }
    if Emptiable(store) {
      var ids :| Empties(store, ids);
      EmptiedWasAcyclic(store, ids);
    }
  }

  // ------------------------------------------------------------- steps that make a cycle

  /** The mapping a step gives a list of dependencies, and the list. */
  function NewList(store: Store, step: Step): Option<(string, seq<string>)> {
    if StepOutcome(store, step) != Done then None
    else
      match step
      case Add(m, opts) => Some((Identified(m).id, if opts.dependencies.Some? then opts.dependencies.value else m.dependencies))
      case Create(m, _) => Some((Identified(m).id, m.dependencies))
      case Update(id, u) => Some((id, Pick(u.dependencies, store[id].dependencies)))
      case Delete(_) => None
      case SetStatus(_, _) => None
      case Resolve => None
      case Cleanup => None
  }

  /** Nothing on the list leads back to the mapping yet. */
  ghost predicate MakesNoCycle(store: Store, step: Step) {
    var list := NewList(store, step);
    list.Some? ==> forall d :: d in list.value.1 ==> !Reaches(GraphOf(store), d, list.value.0)
  }

  lemma SubgraphIsAcyclic(g: Graph, h: Graph)
    requires Acyclic(g) && forall k, d :: d in Deps(h, k) ==> d in Deps(g, k)
    ensures Acyclic(h)
  {
    forall a, b | b in Deps(h, a) ensures !Reaches(h, b, a) {
      if Reaches(h, b, a) {
        var steps: nat :| ReachesIn(h, b, a, steps);
        SubgraphPath(h, g, b, a, steps);
      }
    }
  }

  /** Exactly which steps of any kind leave the table without a cycle. */
  lemma StepKeepsAcyclicIff(store: Store, step: Step)
    requires Acyclic(GraphOf(store))
    ensures Acyclic(GraphOf(Apply(store, step))) <==> MakesNoCycle(store, step)
  {
    var g, h := GraphOf(store), GraphOf(Apply(store, step));
    var list := NewList(store, step);
    if list.Some? {
      assert DifferAt(g, h, list.value.0) && Deps(h, list.value.0) == list.value.1;
      NewListKeepsAcyclicIff(g, h, list.value.0);
    } else {
      SubgraphIsAcyclic(g, h);
    }
  }

  ghost predicate NoStepMakesCycle(store: Store, steps: seq<Step>)
    decreases |steps|
  {
    steps == [] || (MakesNoCycle(store, steps[0]) && NoStepMakesCycle(Apply(store, steps[0]), steps[1..]))
  }

  /** The table can be emptied after every step of the run. */
  ghost predicate StaysEmptiable(store: Store, steps: seq<Step>)
    decreases |steps|
  {
    Emptiable(store) && (steps == [] || StaysEmptiable(Apply(store, steps[0]), steps[1..]))
  }

  /** Over every run, with overrides and rewritten dependencies: the table can be emptied
      at all times exactly when no accepted step closes a cycle. */
  lemma {:induction false} StaysEmptiableIff(store: Store, steps: seq<Step>)
    requires Emptiable(store)
    ensures StaysEmptiable(store, steps) <==> NoStepMakesCycle(store, steps)
    decreases |steps|
  {
    if steps != [] {
      var after := Apply(store, steps[0]);
      EmptiableIffAcyclic(store);
      StepKeepsAcyclicIff(store, steps[0]);
      EmptiableIffAcyclic(after);
      if Emptiable(after) {
        StaysEmptiableIff(after, steps[1..]);
      }
    }
  }

  /** Two accepted steps from the empty table, without an override: a mapping is added, and
      an update makes it depend on itself.  The table is sound and cannot be emptied. */
  lemma UpdateClosesCycle() returns (add: Step, update: Step)
    ensures NoOverride(add) && StepOutcome(map[], add) == Done
    ensures update.Update? && StepOutcome(Apply(map[], add), update) == Done
    ensures var store := Apply(Apply(map[], add), update); Sound(store) && !Emptiable(store)
  {
    var m := Mapping("m", "source", "target", "robot", "here", "there", "", "", []);
    add := Add(m, Options(false, true, "", None));
    update := Update("m", Updates(None, None, None, None, None, Some(["m"]), false));
    StepKeepsSoundIff(map[], add);
    var store := Apply(map[], add);
    StepKeepsSoundIff(store, update);
    var after := Apply(store, update);
    EmptiableIffAcyclic(after);
    ReachesSelf(GraphOf(after), "m");
    assert "m" in Deps(GraphOf(after), "m");
  }

  // ------------------------------------------------------------------------ tame runs

  /** An add uses a fresh identifier, and no step rewrites dependencies. */
  ghost predicate Tame(store: Store, step: Step) {
    match step
    case Add(m, opts) => opts.dependencies.None? && Identified(m).id !in store
    case Create(m, _) => Identified(m).id !in store
    case Update(_, u) => u.dependencies.None?
    case _ => true
  }

  ghost predicate TameRun(store: Store, steps: seq<Step>)
    decreases |steps|
  {
    steps == [] || (Tame(store, steps[0]) && TameRun(Apply(store, steps[0]), steps[1..]))
  }

  function Without(order: seq<string>, id: string): seq<string> {
    if order == [] then []
    else Without(order[..|order| - 1], id) + if order[|order| - 1] == id then [] else [order[|order| - 1]]
  }

  /** The stored identifiers, oldest first, after one more step. */
  function NextOrder(store: Store, order: seq<string>, step: Step): seq<string> {
    if StepOutcome(store, step) != Done then order
    else if step.Add? || step.Create? then order + [Identified(step.mapping).id]
    else if step.Delete? then Without(order, step.id)
    else order
  }

  function InsertionOrder(store: Store, order: seq<string>, steps: seq<Step>): seq<string>
    decreases |steps|
  {
    if steps == [] then order
    else InsertionOrder(Apply(store, steps[0]), NextOrder(store, order, steps[0]), steps[1..])
  }

  lemma {:induction false} LayeredWithout(store: Store, order: seq<string>, id: string)
    requires Layered(store, order) && Dependents(store, id) == {}
    ensures Layered(store - {id}, Without(order, id))
    decreases |order|
  {
    if order != [] {
      var last, init := order[|order| - 1], order[..|order| - 1];
      var rest := store - {last};
      assert forall k :: k in Dependents(rest, id) ==> k in Dependents(store, id);
      LayeredWithout(rest, init, id);
      assert rest - {id} == (store - {id}) - {last};
      if last == id {
        assert rest - {id} == store - {id};
        assert Without(order, id) == Without(init, id);
      } else {
        var shorter := Without(init, id) + [last];
        assert shorter[..|shorter| - 1] == Without(init, id);
        assert forall k :: k in Dependents(store - {id}, last) ==> k in Dependents(store, last);
      }
    }
  }

  lemma {:induction false} LayeredSameDependencies(store: Store, after: Store, order: seq<string>)
    requires Layered(store, order) && GraphOf(after) == GraphOf(store)
    ensures Layered(after, order)
  {
    LayeredIffInOrder(store, order);
    LayeredIffInOrder(after, order);
  }

  lemma LayeredInsert(store: Store, order: seq<string>, id: string, m: Mapping)
    requires Sound(store) && Layered(store, order) && id !in store
    requires forall d :: d in m.dependencies ==> d in store
    ensures Layered(store[id := m], order + [id])
  {
    var longer := order + [id];
    assert longer[..|longer| - 1] == order;
    assert store[id := m] - {id} == store;
    assert Dependents(store[id := m], id) == {};
  }

  lemma QuietStepKeepsGraph(store: Store, step: Step)
    requires Sound(store) && Tame(store, step) && (step.Update? || step.SetStatus? || step.Resolve? || step.Cleanup?)
    ensures GraphOf(Apply(store, step)) == GraphOf(store)
  {
    if step.Cleanup? {
      assert forall k :: k in store ==> !IsOrphaned(store[k]);
    }
  }

  lemma TameAddIsLayered(store: Store, order: seq<string>, step: Step)
    requires Sound(store) && Layered(store, order) && Tame(store, step)
    requires (step.Add? || step.Create?) && StepOutcome(store, step) == Done
    ensures Layered(Apply(store, step), order + [Identified(step.mapping).id])
  {
    var id := Identified(step.mapping).id;
    var m := Apply(store, step)[id];
    assert Apply(store, step) == store[id := m];
    LayeredInsert(store, order, id, m);
  }

  lemma TameStepIsLayered(store: Store, order: seq<string>, step: Step)
    requires Sound(store) && Layered(store, order) && Tame(store, step)
    ensures Layered(Apply(store, step), NextOrder(store, order, step))
  {
    if StepOutcome(store, step) != Done {
    } else if step.Add? || step.Create? {
      TameAddIsLayered(store, order, step);
    } else if step.Delete? {
      LayeredWithout(store, order, step.id);
    } else {
      QuietStepKeepsGraph(store, step);
      LayeredSameDependencies(store, Apply(store, step), order);
    }
  }

  lemma {:induction false} TameRunIsLayered(store: Store, order: seq<string>, steps: seq<Step>)
    requires Sound(store) && Layered(store, order) && TameRun(store, steps)
    ensures Layered(Run(store, steps), InsertionOrder(store, order, steps))
    ensures Sound(Run(store, steps))
    decreases |steps|
  {
    if steps != [] {
      StepKeepsSoundIff(store, steps[0]);
      TameStepIsLayered(store, order, steps[0]);
      TameRunIsLayered(Apply(store, steps[0]), NextOrder(store, order, steps[0]), steps[1..]);
    }
  }

  lemma LayeredKeys(store: Store, order: seq<string>)
    requires Layered(store, order)
    ensures Elements(order) == store.Keys && (store != map[] ==> order != [])
  {
    LayeredIffInOrder(store, order);
    assert GraphOf(store).Keys == store.Keys;
  }

  /** After any tame run from the empty table: there is no dependency cycle, the newest
      mapping can be deleted, and deleting newest first empties the table. */
  lemma TameRunCanBeUndone(steps: seq<Step>)
    requires TameRun(map[], steps)
    ensures var store := Run(map[], steps);
      var order := InsertionOrder(map[], [], steps);
      && Elements(order) == store.Keys
      && Empties(store, Reversed(order))
      && Acyclic(GraphOf(store))
      && (store != map[] ==> order != [] && StepOutcome(store, Delete(order[|order| - 1])) == Done)
  {
    var store := Run(map[], steps);
    var order := InsertionOrder(map[], [], steps);
    TameRunIsLayered(map[], [], steps);
    ReverseOrderEmptiesIff(store, order);
    EmptiedWasAcyclic(store, Reversed(order));
    LayeredKeys(store, order);
  }
}
