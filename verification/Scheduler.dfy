/** The scheduler's loop and its trigger handler as a state machine: two goroutines that
    read the active set under one lock and add to it under another, and one tracker
    goroutine per started attempt.  Each step is one lock region or atomic action. */
module Scheduler {
  import opened Collections

  /** A trigger's job gets a generated identifier, taken to be fresh. */
  datatype JobId = Scheduled(name: string) | Immediate(n: nat)

  /** `maxConcurrent` is positive: the constructor replaces other values by 3. */
  datatype Config = Config(maxConcurrent: nat, skipIfRunning: bool)

  /** Where the loop stands in `executePendingJobs` and `executeScheduledJob`. */
  datatype LoopState =
    | Waiting
    | Listed(jobs: seq<string>)
    | NotSkipped(jobs: seq<string>)
    | Starting(jobs: seq<string>)
    | Submitting(job: string, jobs: seq<string>)
    | Undoing(job: string, jobs: seq<string>)
    | Counting(jobs: seq<string>)

  /** Where the trigger handler stands in `executeImmediateTrigger`. */
  datatype TriggerState = Ready | Passed | Sending(n: nat) | Retracting(n: nat) | Tallying

  datatype State = State(
    active: set<JobId>, loop: LoopState, trigger: TriggerState, nextID: nat,
    trackers: multiset<JobId>,   // attempts submitted, not yet removed from the active set
    finishing: nat,              // removed by their tracker, not yet counted as completed
    started: nat, completed: nat, failed: nat)

  const INIT := State({}, Waiting, Ready, 0, multiset{}, 0, 0, 0, 0)

  datatype Step =
    | List(jobs: seq<string>)
    | CheckSkip
    | ReadCount
    | Mark
    | Submit(ok: bool)
    | Undo
    | CountFailed
    | CheckTrigger
    | MarkTrigger
    | SubmitTrigger(ok: bool)
    | UndoTrigger
    | CountTriggerFailed
    | Remove(id: JobId)
    | CountCompleted

  ghost predicate Enabled(s: State, step: Step) {
    match step
    case List(jobs) => s.loop.Waiting? && Distinct(jobs)
    case CheckSkip => s.loop.Listed?
    case ReadCount => s.loop.NotSkipped?
    case Mark => s.loop.Starting? && s.loop.jobs != []
    case Submit(_) => s.loop.Submitting?
    case Undo => s.loop.Undoing?
    case CountFailed => s.loop.Counting?
    case CheckTrigger => s.trigger.Ready?
    case MarkTrigger => s.trigger.Passed?
    case SubmitTrigger(_) => s.trigger.Sending?
    case UndoTrigger => s.trigger.Retracting?
    case CountTriggerFailed => s.trigger.Tallying?
    case Remove(id) => id in s.trackers
    case CountCompleted => s.finishing > 0
  }

  function Continue(jobs: seq<string>): LoopState {
    if jobs == [] then Waiting else Starting(jobs)
  }

  ghost function Next(cfg: Config, s: State, step: Step): State
    requires Enabled(s, step)
  {
    match step
    case List(jobs) => s.(loop := Listed(jobs))
    case CheckSkip =>
      s.(loop := if cfg.skipIfRunning && s.active != {} && s.loop.jobs != [] then Waiting else NotSkipped(s.loop.jobs))
    case ReadCount =>
      var room := cfg.maxConcurrent - |s.active|;
      s.(loop := if room <= 0 then Waiting
                 else if |s.loop.jobs| <= room then Continue(s.loop.jobs) else Continue(s.loop.jobs[..room]))
    case Mark =>
      s.(active := s.active + {Scheduled(s.loop.jobs[0])}, loop := Submitting(s.loop.jobs[0], s.loop.jobs[1..]), started := s.started + 1)
    case Submit(ok) =>
      if ok then s.(loop := Continue(s.loop.jobs), trackers := s.trackers + multiset{Scheduled(s.loop.job)})
      else s.(loop := Undoing(s.loop.job, s.loop.jobs))
    case Undo => s.(active := s.active - {Scheduled(s.loop.job)}, loop := Counting(s.loop.jobs))
    case CountFailed => s.(loop := Continue(s.loop.jobs), failed := s.failed + 1)
    case CheckTrigger => if |s.active| >= cfg.maxConcurrent then s else s.(trigger := Passed)
    case MarkTrigger =>
      s.(active := s.active + {Immediate(s.nextID)}, trigger := Sending(s.nextID), nextID := s.nextID + 1, started := s.started + 1)
    case SubmitTrigger(ok) =>
      if ok then s.(trigger := Ready, trackers := s.trackers + multiset{Immediate(s.trigger.n)})
      else s.(trigger := Retracting(s.trigger.n))
    case UndoTrigger => s.(active := s.active - {Immediate(s.trigger.n)}, trigger := Tallying)
    case CountTriggerFailed => s.(trigger := Ready, failed := s.failed + 1)
    case Remove(id) =>
      s.(active := s.active - {id}, trackers := s.trackers - multiset{id}, finishing := s.finishing + 1)
    case CountCompleted => s.(finishing := s.finishing - 1, completed := s.completed + 1)
  }

  ghost predicate IsRun(cfg: Config, s: State, run: seq<Step>)
    decreases |run|
  {
    run == [] || (Enabled(s, run[0]) && IsRun(cfg, Next(cfg, s, run[0]), run[1..]))
  }

  ghost function Final(cfg: Config, s: State, run: seq<Step>): State
    requires IsRun(cfg, s, run)
    decreases |run|
  {
    if run == [] then s else Final(cfg, Next(cfg, s, run[0]), run[1..])
  }

  // ------------------------------------------------------- size of the active set

  /** Jobs the loop may still mark on the strength of the count it read. */
  function Budget(loop: LoopState): nat {
    match loop
    case Waiting => 0
    case Listed(_) => 0
    case NotSkipped(_) => 0
    case Starting(jobs) => |jobs|
    case Submitting(_, jobs) => |jobs|
    case Undoing(_, jobs) => |jobs|
    case Counting(jobs) => |jobs|
  }

  /** Both goroutines may act on a count that is no longer true. */
  ghost predicate Bounded(cfg: Config, s: State) {
    && Budget(s.loop) <= cfg.maxConcurrent
    && |s.active| + Budget(s.loop) + (if s.trigger.Passed? then 1 else 0) <= 2 * cfg.maxConcurrent
  }

  ghost predicate BoundedWithoutTriggers(cfg: Config, s: State) {
    s.trigger.Ready? && |s.active| + Budget(s.loop) <= cfg.maxConcurrent
  }

  lemma NextKeepsBounded(cfg: Config, s: State, step: Step)
    requires Enabled(s, step) && cfg.maxConcurrent > 0
    ensures Bounded(cfg, s) ==> Bounded(cfg, Next(cfg, s, step))
    ensures BoundedWithoutTriggers(cfg, s) && !step.CheckTrigger? ==> BoundedWithoutTriggers(cfg, Next(cfg, s, step))
  {
    SizeAfterStep(cfg, s, step);
  }

  lemma SizeAfterStep(cfg: Config, s: State, step: Step)
    requires Enabled(s, step)
    ensures |Next(cfg, s, step).active| <= |s.active| + if step.Mark? || step.MarkTrigger? then 1 else 0
  {
    var s' := Next(cfg, s, step);
    if step.Undo? || step.UndoTrigger? || step.Remove? {
      SmallerSet(s'.active, s.active);
    }
  }

  lemma {:induction false} RunKeepsBounded(cfg: Config, s: State, run: seq<Step>)
    requires IsRun(cfg, s, run) && cfg.maxConcurrent > 0
    ensures Bounded(cfg, s) ==> Bounded(cfg, Final(cfg, s, run))
    ensures BoundedWithoutTriggers(cfg, s) && CheckTrigger !in run ==> BoundedWithoutTriggers(cfg, Final(cfg, s, run))
    decreases |run|
  {
    if run != [] {
      NextKeepsBounded(cfg, s, run[0]);
      RunKeepsBounded(cfg, Next(cfg, s, run[0]), run[1..]);
    }
  }

  /** In every interleaving at most twice the limit is active, and at most the limit
      when no trigger is handled. */
  lemma ActiveIsBounded(cfg: Config, run: seq<Step>)
    requires IsRun(cfg, INIT, run) && cfg.maxConcurrent > 0
    ensures |Final(cfg, INIT, run).active| <= 2 * cfg.maxConcurrent
    ensures CheckTrigger !in run ==> |Final(cfg, INIT, run).active| <= cfg.maxConcurrent
  {
    RunKeepsBounded(cfg, INIT, run);
  }

  // ------------------------------------------------------------- what a round starts

  /** The jobs that the loop marked in the run, in order. */
  ghost function Marked(cfg: Config, s: State, run: seq<Step>): seq<string>
    requires IsRun(cfg, s, run)
    decreases |run|
  {
    if run == [] then []
    else (if run[0].Mark? then [s.loop.jobs[0]] else []) + Marked(cfg, Next(cfg, s, run[0]), run[1..])
  }

  /** The counts that the loop read, and whether each skip check found something active. */
  ghost function Reads(cfg: Config, s: State, run: seq<Step>): seq<nat>
    requires IsRun(cfg, s, run)
    decreases |run|
  {
    if run == [] then []
    else (if run[0].ReadCount? then [|s.active|] else []) + Reads(cfg, Next(cfg, s, run[0]), run[1..])
  }

  ghost function Checks(cfg: Config, s: State, run: seq<Step>): seq<bool>
    requires IsRun(cfg, s, run)
    decreases |run|
  {
    if run == [] then []
    else (if run[0].CheckSkip? then [|s.active| > 0] else []) + Checks(cfg, Next(cfg, s, run[0]), run[1..])
  }

  ghost predicate NoList(run: seq<Step>) {
    forall i :: 0 <= i < |run| ==> !run[i].List?
  }

  /** The first jobs of the list, as many as a count of `a` leaves room for. */
  function Chosen(jobs: seq<string>, maxConcurrent: nat, a: nat): seq<string> {
    if a >= maxConcurrent then []
    else if |jobs| <= maxConcurrent - a then jobs
    else jobs[..maxConcurrent - a]
  }

  predicate PastReading(loop: LoopState) {
    loop.Waiting? || loop.Starting? || loop.Submitting? || loop.Undoing? || loop.Counting?
  }

  ghost function JobsLeft(loop: LoopState): seq<string> {
    if loop.Starting? || loop.Submitting? || loop.Undoing? || loop.Counting? then loop.jobs else []
  }

  /** What a step does to the list of jobs that is left. */
  lemma StepMarks(cfg: Config, s: State, step: Step)
    requires Enabled(s, step) && !step.List? && PastReading(s.loop)
    ensures PastReading(Next(cfg, s, step).loop) && !step.CheckSkip? && !step.ReadCount?
    ensures JobsLeft(s.loop) == if step.Mark? then [s.loop.jobs[0]] + JobsLeft(Next(cfg, s, step).loop)
                                else JobsLeft(Next(cfg, s, step).loop)
  {
  }

  lemma StepReads(cfg: Config, s: State, step: Step)
    requires Enabled(s, step) && !step.List? && s.loop.NotSkipped?
    ensures !step.CheckSkip? && !step.Mark?
    ensures var loop := Next(cfg, s, step).loop;
      if step.ReadCount? then PastReading(loop) && JobsLeft(loop) == Chosen(s.loop.jobs, cfg.maxConcurrent, |s.active|)
      else loop == s.loop
  {
  }

  lemma StepChecks(cfg: Config, s: State, step: Step)
    requires Enabled(s, step) && !step.List? && s.loop.Listed?
    ensures !step.ReadCount? && !step.Mark?
    ensures var loop := Next(cfg, s, step).loop;
      if step.CheckSkip? then
        loop == if cfg.skipIfRunning && |s.active| > 0 && s.loop.jobs != [] then Waiting else NotSkipped(s.loop.jobs)
      else loop == s.loop
  {
    assert s.active != {} <==> |s.active| > 0;
  }

  lemma {:induction false} MarksInOrder(cfg: Config, s: State, run: seq<Step>)
    requires IsRun(cfg, s, run) && NoList(run) && PastReading(s.loop)
    ensures var end := Final(cfg, s, run).loop;
      && PastReading(end) && Reads(cfg, s, run) == [] && Checks(cfg, s, run) == []
      && Marked(cfg, s, run) + JobsLeft(end) == JobsLeft(s.loop)
    decreases |run|
  {
    if run != [] {
      assert !run[0].List? && NoList(run[1..]);
      var s', rest := Next(cfg, s, run[0]), run[1..];
      StepMarks(cfg, s, run[0]);
      MarksInOrder(cfg, s', rest);
      TraceOneMore(cfg, s, run);
      if run[0].Mark? {
        Regrouped([s.loop.jobs[0]], Marked(cfg, s', rest), JobsLeft(Final(cfg, s', rest).loop));
      }
    }
  }

  lemma TraceOneMore(cfg: Config, s: State, run: seq<Step>)
    requires IsRun(cfg, s, run) && run != []
    ensures var s', rest := Next(cfg, s, run[0]), run[1..];
      && Final(cfg, s, run) == Final(cfg, s', rest)
      && Marked(cfg, s, run) == (if run[0].Mark? then [s.loop.jobs[0]] + Marked(cfg, s', rest) else Marked(cfg, s', rest))
      && Reads(cfg, s, run) == (if run[0].ReadCount? then [|s.active|] + Reads(cfg, s', rest) else Reads(cfg, s', rest))
      && Checks(cfg, s, run) == (if run[0].CheckSkip? then [|s.active| > 0] + Checks(cfg, s', rest) else Checks(cfg, s', rest))
  {
    var s', rest := Next(cfg, s, run[0]), run[1..];
    assert [] + Marked(cfg, s', rest) == Marked(cfg, s', rest);
    assert [] + Reads(cfg, s', rest) == Reads(cfg, s', rest);
    assert [] + Checks(cfg, s', rest) == Checks(cfg, s', rest);
  }

  /** The loop has still to read the count, or it has and marks what it chose. */
  ghost predicate Reading(cfg: Config, jobs: seq<string>, counts: seq<nat>, marked: seq<string>, end: LoopState) {
    || (counts == [] && marked == [] && end == NotSkipped(jobs))
    || (|counts| == 1 && PastReading(end) && marked + JobsLeft(end) == Chosen(jobs, cfg.maxConcurrent, counts[0]))
  }

  lemma {:induction false} ReadsThenMarks(cfg: Config, s: State, run: seq<Step>)
    requires IsRun(cfg, s, run) && NoList(run) && s.loop.NotSkipped?
    ensures Reading(cfg, s.loop.jobs, Reads(cfg, s, run), Marked(cfg, s, run), Final(cfg, s, run).loop)
    ensures Checks(cfg, s, run) == []
    decreases |run|
  {
    if run != [] {
      assert !run[0].List? && NoList(run[1..]);
      var s' := Next(cfg, s, run[0]);
      StepReads(cfg, s, run[0]);
      TraceOneMore(cfg, s, run);
      if run[0].ReadCount? {
        MarksInOrder(cfg, s', run[1..]);
      } else {
        ReadsThenMarks(cfg, s', run[1..]);
      }
    }
  }

  /** And before that it has still to check, or was told to skip. */
  ghost predicate Checking(cfg: Config, jobs: seq<string>, checks: seq<bool>, counts: seq<nat>, marked: seq<string>, end: LoopState) {
    || (checks == [] && counts == [] && marked == [] && end == Listed(jobs))
    || (|checks| == 1 && (
          if cfg.skipIfRunning && checks[0] && jobs != [] then counts == [] && marked == [] && end.Waiting?
          else Reading(cfg, jobs, counts, marked, end)))
  }

  lemma {:induction false} ChecksThenReads(cfg: Config, s: State, run: seq<Step>)
    requires IsRun(cfg, s, run) && NoList(run) && s.loop.Listed?
    ensures Checking(cfg, s.loop.jobs, Checks(cfg, s, run), Reads(cfg, s, run), Marked(cfg, s, run), Final(cfg, s, run).loop)
    decreases |run|
  {
    if run != [] {
      assert !run[0].List? && NoList(run[1..]);
      var s' := Next(cfg, s, run[0]);
      StepChecks(cfg, s, run[0]);
      TraceOneMore(cfg, s, run);
      if !run[0].CheckSkip? {
        ChecksThenReads(cfg, s', run[1..]);
      } else if s'.loop.Waiting? {
        SkippedMarksNone(cfg, s', run[1..]);
      } else {
        ReadsThenMarks(cfg, s', run[1..]);
      }
    }
  }

  lemma SkippedMarksNone(cfg: Config, s: State, run: seq<Step>)
    requires IsRun(cfg, s, run) && NoList(run) && s.loop.Waiting?
    ensures Reads(cfg, s, run) == [] && Checks(cfg, s, run) == [] && Marked(cfg, s, run) == []
    ensures Final(cfg, s, run).loop.Waiting?
    decreases |run|
  {
    if run != [] {
      assert !run[0].List? && NoList(run[1..]);
      StepMarks(cfg, s, run[0]);
      TraceOneMore(cfg, s, run);
      SkippedMarksNone(cfg, Next(cfg, s, run[0]), run[1..]);
    }
  }

  /** One round of the loop, in every interleaving with triggers and trackers: it is
      skipped exactly when rounds are to be skipped and something was active at the check;
      otherwise it marks, in order, exactly the first jobs listed that fit below the limit
      at the count it read.  It starts none exactly when nothing is listed, the limit is
      reached, or it is skipped. */
  lemma RoundExactly(cfg: Config, s: State, run: seq<Step>, jobs: seq<string>)
    requires s.loop.Waiting? && run != [] && run[0] == List(jobs) && NoList(run[1..])
    requires IsRun(cfg, s, run) && Final(cfg, s, run).loop.Waiting?
    ensures var checks, counts, marked := Checks(cfg, s, run), Reads(cfg, s, run), Marked(cfg, s, run);
      && |checks| == 1
      && (counts == [] <==> cfg.skipIfRunning && checks[0] && jobs != [])
      && (counts == [] ==> marked == [])
      && (counts != [] ==>
            && |counts| == 1 && marked == Chosen(jobs, cfg.maxConcurrent, counts[0])
            && (marked == [] <==> jobs == [] || counts[0] >= cfg.maxConcurrent))
  {
    var s' := Next(cfg, s, run[0]);
    ChecksThenReads(cfg, s', run[1..]);
    TraceOneMore(cfg, s, run);
    var marked := Marked(cfg, s', run[1..]);
    assert marked + [] == marked;
  }

  // -------------------------------------------------------------- the bound is met

  lemma {:induction false} Extend(cfg: Config, s: State, run: seq<Step>, step: Step)
    requires IsRun(cfg, s, run) && Enabled(Final(cfg, s, run), step)
    ensures IsRun(cfg, s, run + [step])
    ensures Final(cfg, s, run + [step]) == Next(cfg, Final(cfg, s, run), step)
    decreases |run|
  {
    var longer := run + [step];
    if run == [] {
      assert longer == [step] && longer[1..] == [];
    } else {
      assert longer[0] == run[0] && longer[1..] == run[1..] + [step];
      Extend(cfg, Next(cfg, s, run[0]), run[1..], step);
    }
  }

  /** `n` different names: a, aa, aaa, ... */
  function Names(n: nat): seq<string> {
    seq(n, i requires 0 <= i < n => seq(i, _ => 'a'))
  }

  lemma NamesDiffer(n: nat)
    ensures Distinct(Names(n))
  {
    forall i, j | 0 <= i < j < n ensures Names(n)[i] != Names(n)[j] {
      assert |Names(n)[i]| == i && |Names(n)[j]| == j;
    }
  }

  lemma NamesSplit(n: nat, k: nat)
    requires k < n
    ensures var names := Names(n);
      && names[k..] == [names[k]] + names[k + 1..] && names[k..][1..] == names[k + 1..]
      && names[k] !in names[..k] && names[..k + 1] == names[..k] + [names[k]]
  {
    NamesDiffer(n);
  }

  /** The loop has read a count of zero; since then `k` triggers got through. */
  ghost predicate AfterTriggers(cfg: Config, s: State, k: nat) {
    && s.loop == Starting(Names(cfg.maxConcurrent)) && s.trigger.Ready?
    && |s.active| == k && s.nextID == k
    && (forall id :: id in s.active ==> id.Immediate? && id.n < k)
  }

  lemma TriggerGetsThrough(cfg: Config, run: seq<Step>, k: nat) returns (longer: seq<Step>)
    requires IsRun(cfg, INIT, run) && AfterTriggers(cfg, Final(cfg, INIT, run), k) && k < cfg.maxConcurrent
    ensures IsRun(cfg, INIT, longer) && AfterTriggers(cfg, Final(cfg, INIT, longer), k + 1)
  {
    Extend(cfg, INIT, run, CheckTrigger);
    longer := run + [CheckTrigger];
    Extend(cfg, INIT, longer, MarkTrigger);
    longer := longer + [MarkTrigger];
    Extend(cfg, INIT, longer, SubmitTrigger(true));
    longer := longer + [SubmitTrigger(true)];
  }

  lemma {:induction false} TriggersGetThrough(cfg: Config, k: nat) returns (run: seq<Step>)
    requires 0 < cfg.maxConcurrent && k <= cfg.maxConcurrent
    ensures IsRun(cfg, INIT, run) && AfterTriggers(cfg, Final(cfg, INIT, run), k)
  {
    if k == 0 {
      var jobs := Names(cfg.maxConcurrent);
      NamesDiffer(cfg.maxConcurrent);
      Extend(cfg, INIT, [], List(jobs));
      run := [] + [List(jobs)];
      Extend(cfg, INIT, run, CheckSkip);
      run := run + [CheckSkip];
      Extend(cfg, INIT, run, ReadCount);
      run := run + [ReadCount];
    } else {
      run := TriggersGetThrough(cfg, k - 1);
      run := TriggerGetsThrough(cfg, run, k - 1);
    }
  }

  /** Then the loop starts `k` of the jobs it had room for. */
  ghost predicate AfterMarks(cfg: Config, s: State, k: nat) {
    && k <= cfg.maxConcurrent
    && s.loop == Continue(Names(cfg.maxConcurrent)[k..])
    && |s.active| == cfg.maxConcurrent + k
    && (forall id :: id in s.active && id.Scheduled? ==> id.name in Names(cfg.maxConcurrent)[..k])
  }

  lemma MarkedNext(cfg: Config, s: State, k: nat)
    requires k < cfg.maxConcurrent && AfterMarks(cfg, s, k)
    ensures Enabled(s, Mark) && Enabled(Next(cfg, s, Mark), Submit(true))
    ensures AfterMarks(cfg, Next(cfg, Next(cfg, s, Mark), Submit(true)), k + 1)
  {
    var name := Names(cfg.maxConcurrent)[k];
    NamesSplit(cfg.maxConcurrent, k);
    assert Scheduled(name) !in s.active;
  }

  lemma {:induction false} MarksGetThrough(cfg: Config, k: nat) returns (run: seq<Step>)
    requires 0 < cfg.maxConcurrent && k <= cfg.maxConcurrent
    ensures IsRun(cfg, INIT, run) && AfterMarks(cfg, Final(cfg, INIT, run), k)
  {
    if k == 0 {
      run := TriggersGetThrough(cfg, cfg.maxConcurrent);
      assert Names(cfg.maxConcurrent)[0..] == Names(cfg.maxConcurrent);
    } else {
      run := MarksGetThrough(cfg, k - 1);
      MarkedNext(cfg, Final(cfg, INIT, run), k - 1);
      Extend(cfg, INIT, run, Mark);
      run := run + [Mark];
      Extend(cfg, INIT, run, Submit(true));
      run := run + [Submit(true)];
    }
  }

  /** For every limit some run makes the active set twice as large. */
  lemma BoundIsReached(cfg: Config) returns (run: seq<Step>)
    requires cfg.maxConcurrent > 0
    ensures IsRun(cfg, INIT, run) && |Final(cfg, INIT, run).active| == 2 * cfg.maxConcurrent
  {
    run := MarksGetThrough(cfg, cfg.maxConcurrent);
  }

  // ------------------------------------------------------------------- accounting

  function InLoop(loop: LoopState): nat {
    if loop.Submitting? || loop.Undoing? || loop.Counting? then 1 else 0
  }

  function InTrigger(trigger: TriggerState): nat {
    if trigger.Sending? || trigger.Retracting? || trigger.Tallying? then 1 else 0
  }

  /** Attempts begun and not yet counted as failed or completed. */
  function Outstanding(s: State): nat {
    |s.trackers| + s.finishing + InLoop(s.loop) + InTrigger(s.trigger)
  }

  lemma NextAccounts(cfg: Config, s: State, step: Step)
    requires Enabled(s, step) && s.started == s.failed + s.completed + Outstanding(s)
    ensures var s' := Next(cfg, s, step); s'.started == s'.failed + s'.completed + Outstanding(s')
  {
  }

  lemma {:induction false} RunAccounts(cfg: Config, s: State, run: seq<Step>)
    requires IsRun(cfg, s, run) && s.started == s.failed + s.completed + Outstanding(s)
    ensures var s' := Final(cfg, s, run); s'.started == s'.failed + s'.completed + Outstanding(s')
    decreases |run|
  {
    if run != [] {
      NextAccounts(cfg, s, run[0]);
      RunAccounts(cfg, Next(cfg, s, run[0]), run[1..]);
    }
  }

  lemma EveryRunAccounts(cfg: Config, run: seq<Step>)
    requires IsRun(cfg, INIT, run)
    ensures var s := Final(cfg, INIT, run); s.started == s.failed + s.completed + Outstanding(s)
  {
    RunAccounts(cfg, INIT, run);
  }

  /** How many submissions of the run were accepted, or refused. */
  ghost function Answers(run: seq<Step>, ok: bool): nat
    decreases |run|
  {
    if run == [] then 0
    else Answer(run[0], ok) + Answers(run[1..], ok)
  }

  /** Refused attempts on their way to being counted. */
  function Refused(s: State): nat {
    (if s.loop.Undoing? || s.loop.Counting? then 1 else 0) + (if s.trigger.Retracting? || s.trigger.Tallying? then 1 else 0)
  }

  function Answer(step: Step, ok: bool): nat {
    if (step.Submit? || step.SubmitTrigger?) && step.ok == ok then 1 else 0
  }

  lemma StepAccepts(cfg: Config, s: State, step: Step)
    requires Enabled(s, step)
    ensures var s' := Next(cfg, s, step);
      s'.completed + s'.finishing + |s'.trackers| == s.completed + s.finishing + |s.trackers| + Answer(step, true)
  {
  }

  lemma StepRefuses(cfg: Config, s: State, step: Step)
    requires Enabled(s, step)
    ensures var s' := Next(cfg, s, step); s'.failed + Refused(s') == s.failed + Refused(s) + Answer(step, false)
  {
  }

  lemma {:induction false} RunAnswers(cfg: Config, s: State, run: seq<Step>)
    requires IsRun(cfg, s, run)
    ensures var s' := Final(cfg, s, run);
      && s'.completed + s'.finishing + |s'.trackers| == s.completed + s.finishing + |s.trackers| + Answers(run, true)
      && s'.failed + Refused(s') == s.failed + Refused(s) + Answers(run, false)
    decreases |run|
  {
    if run != [] {
      StepAccepts(cfg, s, run[0]);
      StepRefuses(cfg, s, run[0]);
      RunAnswers(cfg, Next(cfg, s, run[0]), run[1..]);
    }
  }

  /** In every interleaving: an attempt counts as completed exactly if the pool accepted it,
      and as failed exactly if the pool refused it. */
  lemma CompletedAndFailedExactly(cfg: Config, run: seq<Step>)
    requires IsRun(cfg, INIT, run)
    ensures var s := Final(cfg, INIT, run);
      && s.completed + s.finishing + |s.trackers| == Answers(run, true)
      && s.failed + Refused(s) == Answers(run, false)
  {
    RunAnswers(cfg, INIT, run);
  }

  // ------------------------------------------- attempts running, as against job names

  ghost function RunningInLoop(loop: LoopState): multiset<JobId> {
    if loop.Submitting? || loop.Undoing? then multiset{Scheduled(loop.job)} else multiset{}
  }

  ghost function RunningInTrigger(trigger: TriggerState): multiset<JobId> {
    if trigger.Sending? || trigger.Retracting? then multiset{Immediate(trigger.n)} else multiset{}
  }

  /** Every attempt that still counts itself active, by its job.  The active set keeps
      one entry per job name, however many attempts run under it. */
  ghost function Running(s: State): multiset<JobId> {
    s.trackers + RunningInLoop(s.loop) + RunningInTrigger(s.trigger)
  }

  function ToStart(loop: LoopState): seq<string> {
    if loop.Starting? || loop.Submitting? || loop.Undoing? || loop.Counting? then loop.jobs else []
  }

  ghost predicate ToStartIsNew(s: State) {
    && Distinct(ToStart(s.loop))
    && (forall j :: j in ToStart(s.loop) ==> Scheduled(j) !in s.active)
  }

  /** One attempt per active job, and the jobs still to start are not active. */
  ghost predicate OneEach(cfg: Config, s: State) {
    && Running(s) == multiset(s.active)
    && (forall n: nat :: Immediate(n) in s.active ==> n < s.nextID)
    && ToStartIsNew(s)
    && (s.loop.Listed? || s.loop.NotSkipped? ==> Distinct(s.loop.jobs))
    && (s.loop.NotSkipped? && cfg.skipIfRunning ==>
          s.loop.jobs == [] || forall j :: Scheduled(j) !in s.active)
  }

  ghost predicate Careful(cfg: Config) {
    cfg.skipIfRunning || cfg.maxConcurrent == 1
  }

  lemma AddNew<T>(a: set<T>, x: T)
    requires x !in a
    ensures multiset(a + {x}) == multiset(a) + multiset{x}
  {
  }

  lemma DropOld<T>(a: set<T>, x: T)
    requires x in a
    ensures multiset(a - {x}) == multiset(a) - multiset{x}
  {
  }

  /** A change that none of the clauses can see. */
  lemma FrameOneEach(cfg: Config, s: State, s': State)
    requires OneEach(cfg, s) && Running(s') == Running(s)
    requires s'.active == s.active && s'.nextID == s.nextID && ToStart(s'.loop) == ToStart(s.loop)
    requires s'.loop.Listed? || s'.loop.NotSkipped? ==> s'.loop == s.loop
    ensures OneEach(cfg, s')
  {
  }

  lemma CountFailedKeepsOneEach(cfg: Config, s: State)
    requires OneEach(cfg, s) && Enabled(s, CountFailed)
    ensures OneEach(cfg, Next(cfg, s, CountFailed))
  {
    var s' := Next(cfg, s, CountFailed);
    assert RunningInLoop(s'.loop) == RunningInLoop(s.loop) == multiset{};
    FrameOneEach(cfg, s, s');
  }

  lemma PassingKeepsOneEach(cfg: Config, s: State)
    requires OneEach(cfg, s) && s.trigger.Ready?
    ensures OneEach(cfg, s.(trigger := Passed))
  {
    assert RunningInTrigger(Passed) == RunningInTrigger(Ready);
    FrameOneEach(cfg, s, s.(trigger := Passed));
  }

  lemma CheckTriggerKeepsOneEach(cfg: Config, s: State)
    requires OneEach(cfg, s) && Enabled(s, CheckTrigger)
    ensures OneEach(cfg, Next(cfg, s, CheckTrigger))
  {
    if |s.active| < cfg.maxConcurrent {
      PassingKeepsOneEach(cfg, s);
    }
  }

  lemma CountingKeepsOneEach(cfg: Config, s: State, step: Step)
    requires OneEach(cfg, s) && Enabled(s, step) && (step.CountTriggerFailed? || step.CountCompleted?)
    ensures OneEach(cfg, Next(cfg, s, step))
  {
    FrameOneEach(cfg, s, Next(cfg, s, step));
  }

  lemma ListKeepsOneEach(cfg: Config, s: State, jobs: seq<string>)
    requires OneEach(cfg, s) && Enabled(s, List(jobs))
    ensures OneEach(cfg, Next(cfg, s, List(jobs)))
  {
  }

  lemma CheckSkipKeepsOneEach(cfg: Config, s: State)
    requires OneEach(cfg, s) && Enabled(s, CheckSkip)
    ensures OneEach(cfg, Next(cfg, s, CheckSkip))
  {
    assert RunningInLoop(Next(cfg, s, CheckSkip).loop) == RunningInLoop(s.loop);
  }

  /** With rounds skipped while anything is active, or a limit of one, the jobs a round
      may start are not active. */
  lemma ChosenAreNew(cfg: Config, s: State)
    requires Careful(cfg) && OneEach(cfg, s) && Enabled(s, ReadCount)
    ensures ToStartIsNew(Next(cfg, s, ReadCount))
  {
    assert s.active == {} || |s.active| > 0;
  }

  lemma ReadCountKeepsOneEach(cfg: Config, s: State)
    requires Careful(cfg) && OneEach(cfg, s) && Enabled(s, ReadCount)
    ensures OneEach(cfg, Next(cfg, s, ReadCount))
  {
    ChosenAreNew(cfg, s);
    assert RunningInLoop(Next(cfg, s, ReadCount).loop) == RunningInLoop(s.loop);
  }

  lemma MarkKeepsOneEach(cfg: Config, s: State)
    requires OneEach(cfg, s) && Enabled(s, Mark)
    ensures OneEach(cfg, Next(cfg, s, Mark))
  {
    var id, s' := Scheduled(s.loop.jobs[0]), Next(cfg, s, Mark);
    AddNew(s.active, id);
    assert Running(s') == Running(s) + multiset{id};
    assert ToStart(s'.loop) == ToStart(s.loop)[1..];
  }

  lemma MarkTriggerKeepsOneEach(cfg: Config, s: State)
    requires OneEach(cfg, s) && Enabled(s, MarkTrigger)
    ensures OneEach(cfg, Next(cfg, s, MarkTrigger))
  {
    var id, s' := Immediate(s.nextID), Next(cfg, s, MarkTrigger);
    AddNew(s.active, id);
    assert RunningInTrigger(s'.trigger) == multiset{id} && RunningInTrigger(s.trigger) == multiset{};
    assert Running(s') == Running(s) + multiset{id};
    assert ToStart(s'.loop) == ToStart(s.loop);
  }

  lemma SubmitKeepsOneEach(cfg: Config, s: State, ok: bool)
    requires OneEach(cfg, s) && Enabled(s, Submit(ok))
    ensures OneEach(cfg, Next(cfg, s, Submit(ok)))
  {
    assert Running(Next(cfg, s, Submit(ok))) == Running(s);
    FrameOneEach(cfg, s, Next(cfg, s, Submit(ok)));
  }

  lemma SubmitTriggerKeepsOneEach(cfg: Config, s: State, ok: bool)
    requires OneEach(cfg, s) && Enabled(s, SubmitTrigger(ok))
    ensures OneEach(cfg, Next(cfg, s, SubmitTrigger(ok)))
  {
    assert Running(Next(cfg, s, SubmitTrigger(ok))) == Running(s);
    FrameOneEach(cfg, s, Next(cfg, s, SubmitTrigger(ok)));
  }

  /** An attempt leaves, and takes its job's entry with it. */
  lemma LeavingKeepsOneEach(cfg: Config, s: State, s': State, id: JobId)
    requires OneEach(cfg, s) && id in Running(s)
    requires Running(s') == Running(s) - multiset{id} && s'.active == s.active - {id}
    requires s'.nextID == s.nextID && ToStart(s'.loop) == ToStart(s.loop)
    requires s'.loop == s.loop || s'.loop.Counting?
    ensures OneEach(cfg, s')
  {
    assert id in s.active;
    DropOld(s.active, id);
  }

  lemma UndoKeepsOneEach(cfg: Config, s: State)
    requires OneEach(cfg, s) && Enabled(s, Undo)
    ensures OneEach(cfg, Next(cfg, s, Undo))
  {
    var id := Scheduled(s.loop.job);
    assert Running(Next(cfg, s, Undo)) == Running(s) - multiset{id};
    LeavingKeepsOneEach(cfg, s, Next(cfg, s, Undo), id);
  }

  lemma UndoTriggerKeepsOneEach(cfg: Config, s: State)
    requires OneEach(cfg, s) && Enabled(s, UndoTrigger)
    ensures OneEach(cfg, Next(cfg, s, UndoTrigger))
  {
    var id := Immediate(s.trigger.n);
    assert Running(Next(cfg, s, UndoTrigger)) == Running(s) - multiset{id};
    LeavingKeepsOneEach(cfg, s, Next(cfg, s, UndoTrigger), id);
  }

  lemma RemoveKeepsOneEach(cfg: Config, s: State, id: JobId)
    requires OneEach(cfg, s) && Enabled(s, Remove(id))
    ensures OneEach(cfg, Next(cfg, s, Remove(id)))
  {
    assert Running(Next(cfg, s, Remove(id))) == Running(s) - multiset{id};
    LeavingKeepsOneEach(cfg, s, Next(cfg, s, Remove(id)), id);
  }

  lemma NextKeepsOneEach(cfg: Config, s: State, step: Step)
    requires Careful(cfg) && OneEach(cfg, s) && Enabled(s, step)
    ensures OneEach(cfg, Next(cfg, s, step))
  {
    match step
    case ReadCount => ReadCountKeepsOneEach(cfg, s);
    case Mark => MarkKeepsOneEach(cfg, s);
    case MarkTrigger => MarkTriggerKeepsOneEach(cfg, s);
    case List(jobs) => ListKeepsOneEach(cfg, s, jobs);
    case CheckSkip => CheckSkipKeepsOneEach(cfg, s);
    case Submit(ok) => SubmitKeepsOneEach(cfg, s, ok);
    case SubmitTrigger(ok) => SubmitTriggerKeepsOneEach(cfg, s, ok);
    case Undo => UndoKeepsOneEach(cfg, s);
    case UndoTrigger => UndoTriggerKeepsOneEach(cfg, s);
    case Remove(id) => RemoveKeepsOneEach(cfg, s, id);
    case CountFailed => CountFailedKeepsOneEach(cfg, s);
    case CheckTrigger => CheckTriggerKeepsOneEach(cfg, s);
    case _ => CountingKeepsOneEach(cfg, s, step);
  }

  lemma {:induction false} RunKeepsOneEach(cfg: Config, s: State, run: seq<Step>)
    requires Careful(cfg) && OneEach(cfg, s) && IsRun(cfg, s, run)
    ensures OneEach(cfg, Final(cfg, s, run))
    decreases |run|
  {
    if run != [] {
      NextKeepsOneEach(cfg, s, run[0]);
      RunKeepsOneEach(cfg, Next(cfg, s, run[0]), run[1..]);
    }
  }

  /** Attempts of job "a" piled up under one name. */
  ghost predicate Piled(s: State, k: nat) {
    && s.loop.Waiting? && s.trigger.Ready? && s.active <= {Scheduled("a")}
    && |s.trackers| == k
  }

  lemma {:induction false} PileUp(cfg: Config, k: nat) returns (run: seq<Step>)
    requires !cfg.skipIfRunning && cfg.maxConcurrent >= 2
    ensures IsRun(cfg, INIT, run) && Piled(Final(cfg, INIT, run), k)
  {
    if k == 0 {
      run := [];
    } else {
      run := PileUp(cfg, k - 1);
      SmallerSet(Final(cfg, INIT, run).active, {Scheduled("a")});
      Extend(cfg, INIT, run, List(["a"]));
      run := run + [List(["a"])];
      Extend(cfg, INIT, run, CheckSkip);
      run := run + [CheckSkip];
      Extend(cfg, INIT, run, ReadCount);
      run := run + [ReadCount];
      Extend(cfg, INIT, run, Mark);
      run := run + [Mark];
      Extend(cfg, INIT, run, Submit(true));
      run := run + [Submit(true)];
    }
  }

  ghost predicate RunningBounded(cfg: Config) {
    forall run :: IsRun(cfg, INIT, run) ==> |Running(Final(cfg, INIT, run))| <= 2 * cfg.maxConcurrent
  }

  /** Exactly when the bound on active names is a bound on running attempts: rounds are
      skipped while anything runs, or the limit is one.  Otherwise a job that is due again
      before its last attempt ended piles up attempts without limit. */
  lemma RunningBoundedIff(cfg: Config)
    requires cfg.maxConcurrent > 0
    ensures RunningBounded(cfg) <==> Careful(cfg)
  {
    if Careful(cfg) {
      forall run | IsRun(cfg, INIT, run) ensures |Running(Final(cfg, INIT, run))| <= 2 * cfg.maxConcurrent {
        RunKeepsOneEach(cfg, INIT, run);
        RunKeepsBounded(cfg, INIT, run);
      }
    } else {
      var run := PileUp(cfg, 2 * cfg.maxConcurrent + 1);
      assert IsRun(cfg, INIT, run) && |Running(Final(cfg, INIT, run))| > 2 * cfg.maxConcurrent;
    }
  }
}
