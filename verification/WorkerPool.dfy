/** The worker pool as a state machine: submitters, the job channel and one goroutine per
    worker, with every atomic counter update a step of its own.  A job is named by its
    place in the order of sends, so submitting one job twice gives two names. */
module WorkerPool {

  /** `maxRetries` and `queueSize` are positive: the constructor replaces other values. */
  datatype Config = Config(queueSize: nat, maxRetries: nat)

  /** Where a worker stands in `start` and `processJob`. */
  datatype Worker =
    | Idle
    | Taken(job: nat)                  // received from the channel
    | Counted(job: nat)                // counted as active, still counted as queued
    | Running(job: nat, attempt: nat)
    | Waiting(job: nat, attempt: nat)  // before a retry
    | Tallying(job: nat, ok: bool)
    | Leaving                          // about to be uncounted as active
    | Gone

  datatype State = State(
    channel: seq<nat>, sent: nat, taken: nat,
    uncounted: nat,      // submitters that sent and did not yet raise `queuedJobs`
    unsubmitted: nat,    // submitters that did, and did not yet raise `jobsSubmitted`
    queuedJobs: int, jobsSubmitted: int, activeWorkers: int, completedJobs: int, failedJobs: int,
    workers: map<nat, Worker>, told: set<nat>, cancelled: bool,
    completed: set<nat>, failed: set<nat>, abandoned: set<nat>,
    holder: map<nat, nat>,             // the worker that has a job in hand
    outcomes: map<nat, seq<bool>>)     // per job, how each execution ended

  const INIT := State([], 0, 0, 0, 0, 0, 0, 0, 0, 0, map[], {}, false, {}, {}, {}, map[], map[])

  /** `Grow` starts a worker (`Start` or `Resize`); `Tell` closes its quit channel. */
  datatype Step =
    | Send
    | CountQueued
    | CountSubmitted
    | Cancel
    | Grow(w: nat)
    | Tell(w: nat)
    | Exit(w: nat)
    | Take(w: nat)
    | BeginActive(w: nat)
    | EndQueued(w: nat)
    | Execute(w: nat, ok: bool)
    | RetryDue(w: nat)
    | Abandon(w: nat)
    | Tally(w: nat)
    | Leave(w: nat)

  ghost predicate Enabled(cfg: Config, s: State, step: Step) {
    match step
    case Send => |s.channel| < cfg.queueSize
    case CountQueued => s.uncounted > 0
    case CountSubmitted => s.unsubmitted > 0
    case Cancel => true
    case Grow(w) => w !in s.workers
    case Tell(w) => w in s.workers
    case Exit(w) => w in s.workers && s.workers[w].Idle? && (w in s.told || s.cancelled)
    case Take(w) => w in s.workers && s.workers[w].Idle? && s.channel != []
    case BeginActive(w) => w in s.workers && s.workers[w].Taken?
    case EndQueued(w) => w in s.workers && s.workers[w].Counted?
    case Execute(w, ok) => w in s.workers && s.workers[w].Running?
    case RetryDue(w) => w in s.workers && s.workers[w].Waiting?
    case Abandon(w) => w in s.workers && s.workers[w].Waiting? && s.cancelled
    case Tally(w) => w in s.workers && s.workers[w].Tallying?
    case Leave(w) => w in s.workers && s.workers[w].Leaving?
  }

  function AfterExecution(cfg: Config, job: nat, attempt: nat, ok: bool): Worker {
    if ok then Tallying(job, true)
    else if attempt < cfg.maxRetries then Waiting(job, attempt + 1)
    else Tallying(job, false)
  }

  function Outcomes(s: State, job: nat): seq<bool> {
    if job in s.outcomes then s.outcomes[job] else []
  }

  ghost function Next(cfg: Config, s: State, step: Step): State
    requires Enabled(cfg, s, step)
  {
    match step
    case Send => s.(channel := s.channel + [s.sent], sent := s.sent + 1, uncounted := s.uncounted + 1)
    case CountQueued => s.(uncounted := s.uncounted - 1, unsubmitted := s.unsubmitted + 1, queuedJobs := s.queuedJobs + 1)
    case CountSubmitted => s.(unsubmitted := s.unsubmitted - 1, jobsSubmitted := s.jobsSubmitted + 1)
    case Cancel => s.(cancelled := true)
    case Grow(w) => s.(workers := s.workers[w := Idle])
    case Tell(w) => s.(told := s.told + {w})
    case Exit(w) => s.(workers := s.workers[w := Gone])
    case Take(w) => s.(workers := s.workers[w := Taken(s.channel[0])], channel := s.channel[1..], taken := s.taken + 1,
                         holder := s.holder[s.channel[0] := w])
    case BeginActive(w) => s.(workers := s.workers[w := Counted(s.workers[w].job)], activeWorkers := s.activeWorkers + 1)
    case EndQueued(w) => s.(workers := s.workers[w := Running(s.workers[w].job, 0)], queuedJobs := s.queuedJobs - 1)
    case Execute(w, ok) =>
      var job := s.workers[w].job;
      s.(workers := s.workers[w := AfterExecution(cfg, job, s.workers[w].attempt, ok)],
         outcomes := s.outcomes[job := Outcomes(s, job) + [ok]])
    case RetryDue(w) => s.(workers := s.workers[w := Running(s.workers[w].job, s.workers[w].attempt)])
    case Abandon(w) =>
      s.(workers := s.workers[w := Leaving], holder := s.holder - {s.workers[w].job},
         abandoned := s.abandoned + {s.workers[w].job})
    case Tally(w) =>
      var s' := s.(workers := s.workers[w := Leaving], holder := s.holder - {s.workers[w].job});
      if s.workers[w].ok then s'.(completed := s.completed + {s.workers[w].job}, completedJobs := s.completedJobs + 1)
      else s'.(failed := s.failed + {s.workers[w].job}, failedJobs := s.failedJobs + 1)
    case Leave(w) => s.(workers := s.workers[w := Idle], activeWorkers := s.activeWorkers - 1)
  }

  ghost predicate IsRun(cfg: Config, s: State, run: seq<Step>)
    decreases |run|
  {
    run == [] || (Enabled(cfg, s, run[0]) && IsRun(cfg, Next(cfg, s, run[0]), run[1..]))
  }

  ghost function Final(cfg: Config, s: State, run: seq<Step>): State
    requires IsRun(cfg, s, run)
    decreases |run|
  {
    if run == [] then s else Final(cfg, Next(cfg, s, run[0]), run[1..])
  }

  // ------------------------------------------------------------- counting workers

  predicate StillQueued(w: Worker) { w.Taken? || w.Counted? }

  predicate Active(w: Worker) { w.Counted? || w.Running? || w.Waiting? || w.Tallying? || w.Leaving? }

  predicate Holds(w: Worker) { w.Taken? || w.Counted? || w.Running? || w.Waiting? || w.Tallying? }

  ghost function In(workers: map<nat, Worker>, phase: Worker -> bool): set<nat> {
    set w | w in workers && phase(workers[w])
  }

  function One(b: bool): nat {
    if b then 1 else 0
  }

  /** Steps that move no worker. */
  predicate Stays(step: Step) {
    step.Send? || step.CountQueued? || step.CountSubmitted? || step.Cancel? || step.Tell?
  }

  lemma CountMoves(workers: map<nat, Worker>, w: nat, x: Worker, phase: Worker -> bool)
    ensures |In(workers[w := x], phase)|
         == |In(workers, phase)| - One(w in workers && phase(workers[w])) + One(phase(x))
  {
    var before, after := In(workers, phase), In(workers[w := x], phase);
    assert before - {w} == after - {w};
    assert w in before ==> |before - {w}| == |before| - 1;
    assert w in after ==> |after - {w}| == |after| - 1;
    assert w !in before ==> before - {w} == before;
    assert w !in after ==> after - {w} == after;
  }

  /** Every step that concerns a worker moves that worker alone. */
  lemma CountAfter(cfg: Config, s: State, step: Step, phase: Worker -> bool)
    requires Enabled(cfg, s, step)
    ensures var s' := Next(cfg, s, step);
      if Stays(step) then s'.workers == s.workers
      else step.w in s'.workers &&
           |In(s'.workers, phase)|
             == |In(s.workers, phase)| - One(step.w in s.workers && phase(s.workers[step.w])) + One(phase(s'.workers[step.w]))
  {
    var s' := Next(cfg, s, step);
    if !Stays(step) {
      assert s'.workers == s.workers[step.w := s'.workers[step.w]];
      CountMoves(s.workers, step.w, s'.workers[step.w], phase);
    }
  }

  // ------------------------------------------------------------------- the counters

  ghost predicate CountersAgree(s: State) {
    && s.queuedJobs == |s.channel| + |In(s.workers, StillQueued)| - s.uncounted
    && s.activeWorkers == |In(s.workers, Active)|
    && s.jobsSubmitted + s.unsubmitted + s.uncounted == s.sent
  }

  lemma NextKeepsCounters(cfg: Config, s: State, step: Step)
    requires Enabled(cfg, s, step) && CountersAgree(s)
    ensures CountersAgree(Next(cfg, s, step))
  {
    CountAfter(cfg, s, step, StillQueued);
    CountAfter(cfg, s, step, Active);
  }

  // ------------------------------------------------------------- one place per job

  ghost predicate InOrder(s: State) {
    && s.taken + |s.channel| == s.sent
    && forall i :: 0 <= i < |s.channel| ==> s.channel[i] == s.taken + i
  }

  lemma NextKeepsOrder(cfg: Config, s: State, step: Step)
    requires Enabled(cfg, s, step) && InOrder(s)
    ensures InOrder(Next(cfg, s, step))
  {
  }

  /** A worker has at most one job, and a job in hand is with one worker. */
  ghost predicate Coupled(workers: map<nat, Worker>, holder: map<nat, nat>) {
    && (forall w :: w in workers && Holds(workers[w]) ==> workers[w].job in holder && holder[workers[w].job] == w)
    && (forall job :: job in holder ==>
          holder[job] in workers && Holds(workers[holder[job]]) && workers[holder[job]].job == job)
  }

  lemma TakeKeepsCoupled(workers: map<nat, Worker>, holder: map<nat, nat>, w: nat, job: nat)
    requires Coupled(workers, holder) && job !in holder && w in workers && !Holds(workers[w])
    ensures Coupled(workers[w := Taken(job)], holder[job := w])
  {
  }

  lemma DropKeepsCoupled(workers: map<nat, Worker>, holder: map<nat, nat>, w: nat)
    requires Coupled(workers, holder) && w in workers && Holds(workers[w])
    ensures Coupled(workers[w := Leaving], holder - {workers[w].job})
  {
  }

  lemma MoveKeepsCoupled(workers: map<nat, Worker>, holder: map<nat, nat>, w: nat, x: Worker)
    requires Coupled(workers, holder)
    requires Holds(x) <==> w in workers && Holds(workers[w])
    requires Holds(x) ==> x.job == workers[w].job
    ensures Coupled(workers[w := x], holder)
  {
  }

  predicate EndsJob(step: Step) {
    step.Abandon? || step.Tally?
  }

  lemma NextKeepsCoupled(cfg: Config, s: State, step: Step)
    requires Enabled(cfg, s, step) && Coupled(s.workers, s.holder)
    requires InOrder(s) && s.taken !in s.holder
    ensures Coupled(Next(cfg, s, step).workers, Next(cfg, s, step).holder)
  {
    if step.Take? {
      TakeKeepsCoupled(s.workers, s.holder, step.w, s.channel[0]);
    } else if EndsJob(step) {
      DropKeepsCoupled(s.workers, s.holder, step.w);
    } else if !Stays(step) {
      MoveKeepsCoupled(s.workers, s.holder, step.w, Next(cfg, s, step).workers[step.w]);
    }
  }

  /** A job that was received is with a worker or has ended, and did so once. */
  ghost predicate Placed(s: State, job: nat) {
    One(job in s.holder) + One(job in s.completed) + One(job in s.failed) + One(job in s.abandoned)
      == One(job < s.taken)
  }

  lemma NextKeepsPlaced(cfg: Config, s: State, step: Step, job: nat)
    requires Enabled(cfg, s, step) && Coupled(s.workers, s.holder) && InOrder(s) && Placed(s, job)
    ensures Placed(Next(cfg, s, step), job)
  {
    if step.Take? {
      assert s.channel[0] == s.taken;
    } else if EndsJob(step) {
      assert s.workers[step.w].job in s.holder;
    }
  }

  ghost predicate Tallied(s: State) {
    && s.completedJobs == |s.completed| && s.failedJobs == |s.failed|
    && (s.abandoned != {} ==> s.cancelled)
  }

  lemma SizeWithNew(a: set<nat>, x: nat)
    requires x !in a
    ensures |a + {x}| == |a| + 1
  {
  }

  lemma OneMoreTallied(s: State, s': State, job: nat, ok: bool)
    requires Tallied(s) && s'.abandoned == s.abandoned && s'.cancelled == s.cancelled
    requires job !in s.completed && job !in s.failed
    requires s'.completed == (if ok then s.completed + {job} else s.completed)
    requires s'.failed == (if ok then s.failed else s.failed + {job})
    requires s'.completedJobs == s.completedJobs + One(ok) && s'.failedJobs == s.failedJobs + One(!ok)
    ensures Tallied(s')
  {
    if ok {
      SizeWithNew(s.completed, job);
    } else {
      SizeWithNew(s.failed, job);
    }
  }

  lemma NextKeepsTallied(cfg: Config, s: State, step: Step)
    requires Enabled(cfg, s, step) && Tallied(s) && Coupled(s.workers, s.holder)
    requires step.Tally? ==> Placed(s, s.workers[step.w].job)
    ensures Tallied(Next(cfg, s, step))
  {
    if step.Tally? {
      assert s.workers[step.w].job in s.holder;
      OneMoreTallied(s, Next(cfg, s, step), s.workers[step.w].job, s.workers[step.w].ok);
    }
  }

  ghost predicate InOnePlace(s: State) {
    InOrder(s) && Coupled(s.workers, s.holder) && Tallied(s) && forall job: nat :: Placed(s, job)
  }

  lemma NextKeepsOnePlace(cfg: Config, s: State, step: Step)
    requires Enabled(cfg, s, step) && InOnePlace(s)
    ensures InOnePlace(Next(cfg, s, step))
  {
    NextKeepsOrder(cfg, s, step);
    assert Placed(s, s.taken);
    NextKeepsCoupled(cfg, s, step);
    assert step.Tally? ==> Placed(s, s.workers[step.w].job);
    NextKeepsTallied(cfg, s, step);
    forall job: nat ensures Placed(Next(cfg, s, step), job) {
      NextKeepsPlaced(cfg, s, step, job);
    }
  }

  // --------------------------------------------------------------------- attempts

  function Failures(n: nat): seq<bool> {
    seq(n, _ => false)
  }

  /** What a worker's position says about the executions of its job so far. */
  ghost predicate Tried(cfg: Config, w: Worker, outcomes: seq<bool>) {
    match w
    case Taken(_) => outcomes == []
    case Counted(_) => outcomes == []
    case Running(_, n) => n <= cfg.maxRetries && outcomes == Failures(n)
    case Waiting(_, n) => 0 < n <= cfg.maxRetries && outcomes == Failures(n)
    case Tallying(_, ok) => EndsWith(cfg, outcomes, ok)
    case _ => true
  }

  /** One success after at most `maxRetries` failures, or one failure more than that. */
  ghost predicate EndsWith(cfg: Config, outcomes: seq<bool>, ok: bool) {
    if ok then 0 < |outcomes| <= cfg.maxRetries + 1 && outcomes == Failures(|outcomes| - 1) + [true]
    else outcomes == Failures(cfg.maxRetries + 1)
  }

  /** What is known of a job's executions, from where the job is. */
  ghost predicate JobTried(cfg: Config, s: State, job: nat) {
    && (job in s.completed ==> EndsWith(cfg, Outcomes(s, job), true))
    && (job in s.failed ==> EndsWith(cfg, Outcomes(s, job), false))
    && (job in s.abandoned ==> GivenUp(cfg, Outcomes(s, job)))
    && (job in s.holder && s.holder[job] in s.workers ==> Tried(cfg, s.workers[s.holder[job]], Outcomes(s, job)))
    && (job >= s.taken ==> Outcomes(s, job) == [])
  }

  ghost predicate GivenUp(cfg: Config, outcomes: seq<bool>) {
    0 < |outcomes| <= cfg.maxRetries && outcomes == Failures(|outcomes|)
  }

  lemma ExecuteKeepsTried(cfg: Config, job: nat, attempt: nat, ok: bool)
    requires attempt <= cfg.maxRetries
    ensures Tried(cfg, AfterExecution(cfg, job, attempt, ok), Failures(attempt) + [ok])
  {
    assert !ok ==> Failures(attempt) + [ok] == Failures(attempt + 1);
  }

  /** The step is about another job. */
  ghost predicate Untouched(s: State, s': State, job: nat) {
    && Outcomes(s', job) == Outcomes(s, job) && s.taken <= s'.taken
    && (job in s.completed <==> job in s'.completed) && (job in s.failed <==> job in s'.failed)
    && (job in s.abandoned <==> job in s'.abandoned)
    && (job in s'.holder && s'.holder[job] in s'.workers ==>
          && job in s.holder && s'.holder[job] == s.holder[job] && s.holder[job] in s.workers
          && s'.workers[s.holder[job]] == s.workers[s.holder[job]])
  }

  lemma UntouchedJobTried(cfg: Config, s: State, s': State, job: nat)
    requires JobTried(cfg, s, job) && Untouched(s, s', job)
    ensures JobTried(cfg, s', job)
  {
  }

  lemma StepTouchesOneJob(cfg: Config, s: State, step: Step, job: nat)
    requires Enabled(cfg, s, step) && Coupled(s.workers, s.holder) && InOrder(s)
    requires Stays(step) || (step.Take? && job != s.taken)
          || (!step.Take? && !(step.w in s.workers && Holds(s.workers[step.w]) && s.workers[step.w].job == job))
    ensures Untouched(s, Next(cfg, s, step), job)
  {
    assert step.Take? ==> s.channel[0] == s.taken;
  }

  lemma OwnJobTried(cfg: Config, s: State, step: Step, job: nat)
    requires Enabled(cfg, s, step) && Coupled(s.workers, s.holder) && Placed(s, job) && JobTried(cfg, s, job)
    requires !Stays(step) && !step.Take? && step.w in s.workers && Holds(s.workers[step.w]) && s.workers[step.w].job == job
    ensures JobTried(cfg, Next(cfg, s, step), job)
  {
    assert job in s.holder && s.holder[job] == step.w;
    if step.Execute? {
      ExecuteKeepsTried(cfg, job, s.workers[step.w].attempt, step.ok);
    }
  }

  lemma NextKeepsTried(cfg: Config, s: State, step: Step, job: nat)
    requires Enabled(cfg, s, step) && InOnePlace(s) && JobTried(cfg, s, job)
    ensures JobTried(cfg, Next(cfg, s, step), job)
  {
    assert Placed(s, job);
    if !Stays(step) && !step.Take? && step.w in s.workers && Holds(s.workers[step.w]) && s.workers[step.w].job == job {
      OwnJobTried(cfg, s, step, job);
    } else if step.Take? && job == s.taken {
      assert s.channel[0] == job;
    } else {
      StepTouchesOneJob(cfg, s, step, job);
      UntouchedJobTried(cfg, s, Next(cfg, s, step), job);
    }
  }

  // ------------------------------------------------------------------------- runs

  ghost predicate Inv(cfg: Config, s: State) {
    CountersAgree(s) && InOnePlace(s) && forall job: nat :: JobTried(cfg, s, job)
  }

  lemma NextKeepsInv(cfg: Config, s: State, step: Step)
    requires Inv(cfg, s) && Enabled(cfg, s, step)
    ensures Inv(cfg, Next(cfg, s, step))
  {
    NextKeepsCounters(cfg, s, step);
    NextKeepsOnePlace(cfg, s, step);
    forall job: nat ensures JobTried(cfg, Next(cfg, s, step), job) {
      NextKeepsTried(cfg, s, step, job);
    }
  }

  lemma InitHasInv(cfg: Config)
    ensures Inv(cfg, INIT)
  {
    assert In(INIT.workers, StillQueued) == {} && In(INIT.workers, Active) == {};
  }

  lemma {:induction false} RunKeepsInv(cfg: Config, s: State, run: seq<Step>)
    requires Inv(cfg, s) && IsRun(cfg, s, run)
    ensures Inv(cfg, Final(cfg, s, run))
    decreases |run|
  {
    if run != [] {
      NextKeepsInv(cfg, s, run[0]);
      RunKeepsInv(cfg, Next(cfg, s, run[0]), run[1..]);
    }
  }

  lemma ReachableHasInv(cfg: Config, run: seq<Step>)
    requires IsRun(cfg, INIT, run)
    ensures Inv(cfg, Final(cfg, INIT, run))
  {
    InitHasInv(cfg);
    RunKeepsInv(cfg, INIT, run);
  }

  lemma InvOfJob(cfg: Config, s: State, job: nat)
    requires Inv(cfg, s)
    ensures ExactRetries(cfg, s, job)
    ensures job < s.sent ==> ExactlyOnePlace(s, job)
    ensures job in s.abandoned ==> s.cancelled
  {
    TriedIsExact(cfg, s, job);
    if job < s.sent {
      OnePlaceEach(s, job);
    }
  }

  lemma {:induction false} RunKeepsChannel(cfg: Config, s: State, run: seq<Step>)
    requires |s.channel| <= cfg.queueSize && IsRun(cfg, s, run)
    ensures |Final(cfg, s, run).channel| <= cfg.queueSize
    decreases |run|
  {
    if run != [] {
      RunKeepsChannel(cfg, Next(cfg, s, run[0]), run[1..]);
    }
  }

  /** In every interleaving the channel holds at most `queueSize` jobs, and a submitter is
      refused exactly when it holds as many. */
  lemma ChannelIsBounded(cfg: Config, run: seq<Step>)
    requires IsRun(cfg, INIT, run)
    ensures var s := Final(cfg, INIT, run);
      |s.channel| <= cfg.queueSize && (!Enabled(cfg, s, Send) <==> |s.channel| == cfg.queueSize)
  {
    RunKeepsChannel(cfg, INIT, run);
  }

  /** A worker is gone only when it was told to go or everything was cancelled. */
  ghost predicate GoneIsTold(s: State) {
    forall w :: w in s.workers && s.workers[w].Gone? ==> w in s.told || s.cancelled
  }

  lemma {:induction false} RunKeepsGoneTold(cfg: Config, s: State, run: seq<Step>)
    requires GoneIsTold(s) && IsRun(cfg, s, run)
    ensures GoneIsTold(Final(cfg, s, run))
    decreases |run|
  {
    if run != [] {
      RunKeepsGoneTold(cfg, Next(cfg, s, run[0]), run[1..]);
    }
  }

  lemma {:induction false} ToldExactly(cfg: Config, s: State, run: seq<Step>, w: nat)
    requires IsRun(cfg, s, run)
    ensures var s' := Final(cfg, s, run);
      && (w in s'.told <==> w in s.told || Tell(w) in run)
      && (s'.cancelled <==> s.cancelled || Cancel in run)
    decreases |run|
  {
    if run != [] {
      ToldExactly(cfg, Next(cfg, s, run[0]), run[1..], w);
      assert run == [run[0]] + run[1..];
    }
  }

  /** In every interleaving a worker ends only after it was told to or after a
      cancellation, and an idle one can end at any time after that. */
  lemma WorkersStay(cfg: Config, run: seq<Step>, w: nat)
    requires IsRun(cfg, INIT, run) && w in Final(cfg, INIT, run).workers
    ensures var s := Final(cfg, INIT, run);
      && (s.workers[w].Gone? ==> Tell(w) in run || Cancel in run)
      && (s.workers[w].Idle? ==> (Enabled(cfg, s, Exit(w)) <==> Tell(w) in run || Cancel in run))
  {
    RunKeepsGoneTold(cfg, INIT, run);
    ToldExactly(cfg, INIT, run, w);
  }

  /** In every interleaving: the queue counter runs ahead of the channel by the jobs taken
      and not yet uncounted, and behind it by the sends not yet counted. */
  lemma CountersInEveryRun(cfg: Config, run: seq<Step>)
    requires IsRun(cfg, INIT, run)
    ensures CountersAgree(Final(cfg, INIT, run))
  {
    ReachableHasInv(cfg, run);
  }

  /** Exactly one of: in the channel, with one worker, completed, failed, abandoned. */
  ghost predicate ExactlyOnePlace(s: State, job: nat) {
    && One(job in s.channel) + One(job in s.holder) + One(job in s.completed) + One(job in s.failed) + One(job in s.abandoned) == 1
    && (job in s.channel <==> s.taken <= job)
    && (forall w :: w in s.workers && Holds(s.workers[w]) && s.workers[w].job == job
          <==> job in s.holder && w == s.holder[job])
  }

  lemma OnePlaceEach(s: State, job: nat)
    requires InOnePlace(s) && job < s.sent
    ensures ExactlyOnePlace(s, job)
  {
    assert Placed(s, job);
    if s.taken <= job {
      assert s.channel[job - s.taken] == job;
    }
  }

  /** In every interleaving a job that was sent is in exactly one place, jobs leave the
      channel in the order they were sent, and none is abandoned without a cancellation. */
  lemma EveryJobInOnePlace(cfg: Config, run: seq<Step>, job: nat)
    requires IsRun(cfg, INIT, run) && job < Final(cfg, INIT, run).sent
    ensures ExactlyOnePlace(Final(cfg, INIT, run), job)
    ensures job in Final(cfg, INIT, run).abandoned ==> Final(cfg, INIT, run).cancelled
  {
    ReachableHasInv(cfg, run);
    InvOfJob(cfg, Final(cfg, INIT, run), job);
  }

  /** Retries are exact: a job is counted as completed on its first success, and as failed
      only after every one of its `maxRetries + 1` executions failed. */
  ghost predicate ExactRetries(cfg: Config, s: State, job: nat) {
    && |Outcomes(s, job)| <= cfg.maxRetries + 1
    && (job in s.completed ==> EndsWith(cfg, Outcomes(s, job), true))
    && (job in s.failed ==> EndsWith(cfg, Outcomes(s, job), false))
    && (job in s.abandoned ==> GivenUp(cfg, Outcomes(s, job)))
  }

  lemma TriedIsExact(cfg: Config, s: State, job: nat)
    requires InOnePlace(s) && JobTried(cfg, s, job)
    ensures ExactRetries(cfg, s, job)
  {
    assert Placed(s, job);
  }

  lemma RetriesAreExact(cfg: Config, run: seq<Step>, job: nat)
    requires IsRun(cfg, INIT, run)
    ensures ExactRetries(cfg, Final(cfg, INIT, run), job)
  {
    ReachableHasInv(cfg, run);
    InvOfJob(cfg, Final(cfg, INIT, run), job);
  }

  ghost predicate Quiescent(s: State) {
    && s.uncounted == 0 && s.unsubmitted == 0
    && forall w :: w in s.workers ==> s.workers[w].Idle? || s.workers[w].Gone?
  }

  /** The counters as a reader at rest may take them. */
  ghost predicate CountersTell(s: State) {
    && s.activeWorkers == 0 && s.queuedJobs == |s.channel|
    && s.jobsSubmitted == s.sent == s.queuedJobs + s.completedJobs + s.failedJobs + |s.abandoned|
  }

  lemma {:induction false} Upto(n: nat, s: set<nat>)
    requires forall k: nat :: k in s <==> k < n
    ensures |s| == n
  {
    if n > 0 {
      assert n - 1 in s;
      Upto(n - 1, s - {n - 1});
    } else {
      assert s == {};
    }
  }

  lemma SizeOfThree(a: set<nat>, b: set<nat>, c: set<nat>)
    requires a !! b && (a + b) !! c
    ensures |a + b + c| == |a| + |b| + |c|
  {
  }

  lemma AllEnded(s: State)
    requires InOnePlace(s) && Quiescent(s)
    ensures |s.completed| + |s.failed| + |s.abandoned| == s.taken
  {
    var ended := s.completed + s.failed + s.abandoned;
    forall job: nat ensures job in ended <==> job < s.taken {
      assert Placed(s, job);
      assert job !in s.holder;
    }
    forall job: nat ensures !(job in s.completed && job in s.failed) && !(job in s.completed + s.failed && job in s.abandoned) {
      assert Placed(s, job);
    }
    Upto(s.taken, ended);
    SizeOfThree(s.completed, s.failed, s.abandoned);
  }

  lemma QuiescentTells(s: State)
    requires CountersAgree(s) && InOnePlace(s) && Quiescent(s)
    ensures CountersTell(s)
  {
    assert In(s.workers, StillQueued) == {} && In(s.workers, Active) == {};
    AllEnded(s);
  }

  /** When no goroutine is between two steps, the counters tell the truth: nothing is
      active, `queuedJobs` is the length of the channel, and what was submitted is what
      is queued, completed, failed or abandoned. */
  lemma QuiescentCounters(cfg: Config, run: seq<Step>)
    requires IsRun(cfg, INIT, run) && Quiescent(Final(cfg, INIT, run))
    ensures CountersTell(Final(cfg, INIT, run))
  {
    ReachableHasInv(cfg, run);
    QuiescentTells(Final(cfg, INIT, run));
  }

  // --------------------------------------------------------- the counter below zero

  lemma {:induction false} Extend(cfg: Config, s: State, run: seq<Step>, step: Step)
    requires IsRun(cfg, s, run) && Enabled(cfg, Final(cfg, s, run), step)
    ensures IsRun(cfg, s, run + [step])
    ensures Final(cfg, s, run + [step]) == Next(cfg, Final(cfg, s, run), step)
    decreases |run|
  {
    var longer := run + [step];
    if run == [] {
      assert longer == [step] && longer[1..] == [];
    } else {
      assert longer[0] == run[0] && longer[1..] == run[1..] + [step];
      Extend(cfg, Next(cfg, s, run[0]), run[1..], step);
    }
  }

  /** At no time of the run are more than `m` submitters between sending and returning. */
  ghost predicate AtMostInside(cfg: Config, s: State, run: seq<Step>, m: nat)
    requires IsRun(cfg, s, run)
    decreases |run|
  {
    s.uncounted + s.unsubmitted <= m && (run == [] || AtMostInside(cfg, Next(cfg, s, run[0]), run[1..], m))
  }

  lemma {:induction false} FinallyInside(cfg: Config, s: State, run: seq<Step>, m: nat)
    requires IsRun(cfg, s, run) && AtMostInside(cfg, s, run, m)
    ensures Final(cfg, s, run).uncounted + Final(cfg, s, run).unsubmitted <= m
    decreases |run|
  {
    if run != [] {
      FinallyInside(cfg, Next(cfg, s, run[0]), run[1..], m);
    }
  }

  lemma {:induction false} MoreInside(cfg: Config, s: State, run: seq<Step>, m: nat, n: nat)
    requires IsRun(cfg, s, run) && AtMostInside(cfg, s, run, m) && m <= n
    ensures AtMostInside(cfg, s, run, n)
    decreases |run|
  {
    if run != [] {
      MoreInside(cfg, Next(cfg, s, run[0]), run[1..], m, n);
    }
  }

  lemma {:induction false} ExtendInside(cfg: Config, s: State, run: seq<Step>, step: Step, m: nat)
    requires IsRun(cfg, s, run) && Enabled(cfg, Final(cfg, s, run), step) && AtMostInside(cfg, s, run, m)
    requires var s' := Next(cfg, Final(cfg, s, run), step); s'.uncounted + s'.unsubmitted <= m
    ensures IsRun(cfg, s, run + [step]) && AtMostInside(cfg, s, run + [step], m)
    ensures Final(cfg, s, run + [step]) == Next(cfg, Final(cfg, s, run), step)
    decreases |run|
  {
    var longer := run + [step];
    Extend(cfg, s, run, step);
    if run == [] {
      assert longer == [step] && longer[1..] == [];
    } else {
      assert longer[0] == run[0] && longer[1..] == run[1..] + [step];
      ExtendInside(cfg, Next(cfg, s, run[0]), run[1..], step, m);
    }
  }

  ghost predicate Behind(s: State, n: nat) {
    && s.channel == [] && s.queuedJobs == 0 - n && s.uncounted == n && s.unsubmitted == 0
    && 0 in s.workers && s.workers[0].Idle?
  }

  lemma GrowFirst(cfg: Config) returns (run: seq<Step>)
    ensures IsRun(cfg, INIT, run) && AtMostInside(cfg, INIT, run, 0) && Behind(Final(cfg, INIT, run), 0)
  {
    ExtendInside(cfg, INIT, [], Grow(0), 0);
    run := [] + [Grow(0)];
  }

  /** Worker 0 runs a job, and `n` submitters have not counted their sends. */
  ghost predicate RunningAhead(s: State, n: nat) {
    && s.channel == [] && s.queuedJobs == 0 - n && s.uncounted == n && s.unsubmitted == 0
    && 0 in s.workers && s.workers[0].Running?
  }

  lemma TakeUncounted(cfg: Config, before: seq<Step>, n: nat) returns (run: seq<Step>)
    requires cfg.queueSize > 0 && IsRun(cfg, INIT, before)
    requires AtMostInside(cfg, INIT, before, n) && Behind(Final(cfg, INIT, before), n)
    ensures IsRun(cfg, INIT, run) && AtMostInside(cfg, INIT, run, n + 1) && RunningAhead(Final(cfg, INIT, run), n + 1)
  {
    MoreInside(cfg, INIT, before, n, n + 1);
    ExtendInside(cfg, INIT, before, Send, n + 1);
    run := before + [Send];
    ExtendInside(cfg, INIT, run, Take(0), n + 1);
    run := run + [Take(0)];
    ExtendInside(cfg, INIT, run, BeginActive(0), n + 1);
    run := run + [BeginActive(0)];
    ExtendInside(cfg, INIT, run, EndQueued(0), n + 1);
    run := run + [EndQueued(0)];
  }

  /** A worker serves one more job before its submitter has counted it. */
  lemma ServeUncounted(cfg: Config, before: seq<Step>, n: nat) returns (run: seq<Step>)
    requires cfg.queueSize > 0 && IsRun(cfg, INIT, before)
    requires AtMostInside(cfg, INIT, before, n) && Behind(Final(cfg, INIT, before), n)
    ensures IsRun(cfg, INIT, run) && AtMostInside(cfg, INIT, run, n + 1) && Behind(Final(cfg, INIT, run), n + 1)
  {
    run := TakeUncounted(cfg, before, n);
    ExtendInside(cfg, INIT, run, Execute(0, true), n + 1);
    run := run + [Execute(0, true)];
    ExtendInside(cfg, INIT, run, Tally(0), n + 1);
    run := run + [Tally(0)];
    ExtendInside(cfg, INIT, run, Leave(0), n + 1);
    run := run + [Leave(0)];
  }

  /** One worker can serve any number of jobs before their submitters count them. */
  lemma {:induction false} QueuedJobsGoesBelow(cfg: Config, n: nat) returns (run: seq<Step>)
    requires cfg.queueSize > 0
    ensures IsRun(cfg, INIT, run) && AtMostInside(cfg, INIT, run, n) && Final(cfg, INIT, run).queuedJobs == 0 - n
    ensures Behind(Final(cfg, INIT, run), n)
  {
    if n == 0 {
      run := GrowFirst(cfg);
    } else {
      run := QueuedJobsGoesBelow(cfg, n - 1);
      run := ServeUncounted(cfg, run, n - 1);
    }
  }

  ghost predicate NeverBelow(cfg: Config, m: nat, floor: int) {
    forall run :: IsRun(cfg, INIT, run) && AtMostInside(cfg, INIT, run, m) ==> Final(cfg, INIT, run).queuedJobs >= floor
  }

  /** What a caller can rely on: with at most `m` submitters at a time the queue counter
      never falls below -m, and that floor cannot be raised. */
  lemma QueuedJobsFloorIff(cfg: Config, m: nat, floor: int)
    requires cfg.queueSize > 0
    ensures NeverBelow(cfg, m, floor) <==> floor <= 0 - m
  {
    forall run | IsRun(cfg, INIT, run) && AtMostInside(cfg, INIT, run, m) ensures Final(cfg, INIT, run).queuedJobs >= 0 - m {
      CountersInEveryRun(cfg, run);
      FinallyInside(cfg, INIT, run, m);
    }
    var lowest := QueuedJobsGoesBelow(cfg, m);
    assert IsRun(cfg, INIT, lowest) && AtMostInside(cfg, INIT, lowest, m);
  }
}
