/** The background processor of the adaptive retry engine as a state machine.  A tick
    hands a dequeued operation to a goroutine of its own; cancellation check, token
    request and re-enqueue are separate steps, and any number of goroutines interleave. */
module QueueProcessor {
  import opened Collections
  import opened PriorityQueue
  import opened Wrappers
  import TB = TokenBucket

  datatype Processor = Processor(
    queue: Queue,
    inHand: multiset<Operation>,    // handed to a goroutine, token not yet requested
    denied: multiset<Operation>,    // token refused, not yet re-enqueued
    executed: seq<Operation>,
    gone: multiset<Operation>,      // expired, evicted, cancelled or dropped
    admitted: multiset<Operation>,  // everything a caller ever got into the queue
    bucket: TB.Bucket,
    calls: seq<real>)               // the times of all token requests so far

  datatype Step =
    | Submit(op: Operation, out: Enqueued)
    | Tick(now: real)
    | Cancel(op: Operation)
    | Grant(op: Operation, now: real)
    | Deny(op: Operation, now: real)
    | Requeue(op: Operation, now: real, out: Enqueued)
    | Drop(op: Operation, now: real)
    | Direct(now: real)

  ghost predicate Init(p: Processor) {
    && p.queue == [] && p.inHand == multiset{} && p.denied == multiset{} && p.executed == []
    && p.gone == multiset{} && p.admitted == multiset{} && p.calls == []
    && p.bucket == TB.Created(p.bucket.capacity, p.bucket.refillRate, p.bucket.lastRefill)
  }

  /** The bucket's lock hands out token requests at non-decreasing times. */
  ghost predicate RequestsToken(p: Processor, now: real, p': Processor) {
    && p.bucket.lastRefill <= now && (p.calls != [] ==> p.calls[|p.calls| - 1] <= now)
    && p'.bucket == TB.Consumed(p.bucket, now) && p'.calls == p.calls + [now]
  }

  ghost function Evicted(out: Enqueued): multiset<Operation> {
    if out.Accepted? && out.evicted.Some? then multiset{out.evicted.value} else multiset{}
  }

  /** Identifiers made from the clock are taken to be fresh. */
  ghost predicate Fresh(op: Operation, p: Processor) {
    forall x :: x in p.admitted ==> x.id != op.id
  }

  ghost predicate Next(p: Processor, step: Step, p': Processor, maxSize: int) {
    match step
    case Submit(op, out) =>
      && Fresh(op, p) && EnqueueResult(p.queue, maxSize, op, p'.queue, out)
      && p' == p.(queue := p'.queue, gone := p.gone + Evicted(out),
                  admitted := if out.Accepted? then p.admitted + multiset{op} else p.admitted)
    case Tick(now) =>
      var alive := Unexpired(p.queue, now);
      var expired := multiset(p.queue) - multiset(alive);
      p' == if alive == [] then p.(queue := [], gone := p.gone + expired)
            else p.(queue := alive[1..], inHand := p.inHand + multiset{alive[0]}, gone := p.gone + expired)
    case Cancel(op) =>
      op in p.inHand && p' == p.(inHand := p.inHand - multiset{op}, gone := p.gone + multiset{op})
    case Grant(op, now) =>
      && op in p.inHand && TB.Succeeds(p.bucket, now) && RequestsToken(p, now, p')
      && p' == p.(inHand := p.inHand - multiset{op}, executed := p.executed + [op], bucket := p'.bucket, calls := p'.calls)
    case Deny(op, now) =>
      && op in p.inHand && !TB.Succeeds(p.bucket, now) && RequestsToken(p, now, p')
      && p' == p.(inHand := p.inHand - multiset{op}, denied := p.denied + multiset{op}, bucket := p'.bucket, calls := p'.calls)
    case Requeue(op, now, out) =>
      && op in p.denied && now < op.deadline && EnqueueResult(p.queue, maxSize, op, p'.queue, out)
      && p' == p.(queue := p'.queue, denied := p.denied - multiset{op},
                  gone := p.gone + Evicted(out) + if out.Accepted? then multiset{} else multiset{op})
    case Drop(op, now) =>
      op in p.denied && now >= op.deadline && p' == p.(denied := p.denied - multiset{op}, gone := p.gone + multiset{op})
    case Direct(now) =>
      RequestsToken(p, now, p') && p' == p.(bucket := p'.bucket, calls := p'.calls)
  }

  ghost function Places(p: Processor): multiset<Operation> {
    multiset(p.queue) + p.inHand + p.denied + multiset(p.executed) + p.gone
  }

  /** Every admitted operation is in exactly one place, and is admitted once. */
  ghost predicate Conserved(p: Processor) {
    && p.admitted == Places(p)
    && forall op :: p.admitted[op] <= 1
  }

  /** Since `base`, each execution has a successful token request of its own. */
  ghost predicate PaidSince(base: Processor, p: Processor) {
    && base.calls <= p.calls && base.executed <= p.executed
    && p.bucket.capacity == base.bucket.capacity && p.bucket.refillRate == base.bucket.refillRate
    && TB.Inv(base.bucket) && TB.Inv(p.bucket)
    && var window := p.calls[|base.calls|..];
       && TB.Ordered(base.bucket.lastRefill, window)
       && p.bucket == TB.Final(base.bucket, window)
       && |p.executed| - |base.executed| <= TB.Successes(base.bucket, window)
  }

  lemma {:induction false} OneMoreCall(b: TB.Bucket, times: seq<real>, now: real)
    ensures TB.Final(b, times + [now]) == TB.Consumed(TB.Final(b, times), now)
    ensures TB.Successes(b, times + [now])
         == TB.Successes(b, times) + if TB.Succeeds(TB.Final(b, times), now) then 1 else 0
    decreases |times|
  {
    var longer := times + [now];
    if times == [] {
      assert longer == [now] && longer[1..] == [];
    } else {
      assert longer[0] == times[0] && longer[1..] == times[1..] + [now];
      OneMoreCall(TB.Consumed(b, times[0]), times[1..], now);
    }
  }

  lemma WindowGrows(from: real, before: seq<real>, window: seq<real>, bucket: TB.Bucket, now: real)
    requires TB.Ordered(from, window) && bucket.lastRefill <= now && (window == [] ==> bucket.lastRefill == from)
    requires before + window != [] ==> (before + window)[|before + window| - 1] <= now
    ensures TB.Ordered(from, window + [now])
    ensures (before + window + [now])[|before|..] == window + [now]
  {
    if window != [] {
      assert window[|window| - 1] <= now;
    }
  }

  lemma RequestKeepsPaid(base: Processor, p: Processor, now: real, p': Processor)
    requires PaidSince(base, p) && RequestsToken(p, now, p') && p.executed <= p'.executed
    requires |p'.executed| <= |p.executed| + if TB.Succeeds(p.bucket, now) then 1 else 0
    ensures PaidSince(base, p')
  {
    var window := p.calls[|base.calls|..];
    assert p.calls == base.calls + window;
    WindowGrows(base.bucket.lastRefill, base.calls, window, p.bucket, now);
    OneMoreCall(base.bucket, window, now);
    TB.InvIsKept(p.bucket, now);
    TB.LimitsAreKept(p.bucket, now);
  }

  lemma EnqueueConserves(p: Processor, maxSize: int, op: Operation, queue: Queue, out: Enqueued)
    requires EnqueueResult(p.queue, maxSize, op, queue, out)
    ensures multiset(queue) + Evicted(out) == multiset(p.queue) + if out.Accepted? then multiset{op} else multiset{}
  {
  }

  lemma TickConserves(q: Queue, alive: Queue, now: real, x: Operation)
    requires alive == Unexpired(q, now)
    ensures alive == [] ==> multiset(q)[x] == (multiset(q) - multiset(alive))[x]
    ensures alive != [] ==>
      multiset(q)[x] == multiset(alive[1..])[x] + multiset{alive[0]}[x] + (multiset(q) - multiset(alive))[x]
  {
    UnexpiredFacts(q, now);
    assert multiset(alive)[x] <= multiset(q)[x];
    if alive != [] {
      assert alive == [alive[0]] + alive[1..];
    }
  }

  lemma SubmitConserves(p: Processor, op: Operation, out: Enqueued, p': Processor, maxSize: int)
    requires Conserved(p) && Next(p, Submit(op, out), p', maxSize)
    ensures Conserved(p')
  {
    EnqueueConserves(p, maxSize, op, p'.queue, out);
    assert p.admitted[op] == 0;
    forall x ensures p'.admitted[x] <= 1 && p'.admitted[x] == Places(p')[x] {
      assert p.admitted[x] <= 1;
      SameCount(multiset(p'.queue) + Evicted(out), multiset(p.queue) + if out.Accepted? then multiset{op} else multiset{}, x);
    }
    assert p'.admitted == Places(p');
  }

  lemma SameCount<T>(a: multiset<T>, b: multiset<T>, x: T)
    requires a == b
    ensures a[x] == b[x]
  {
  }

  lemma PlacesRegrouped(p: Processor)
    ensures Places(p) == multiset(p.queue) + (p.inHand + multiset(p.executed)) + p.denied + p.gone
  {
  }

  lemma TickStepConserves(p: Processor, now: real, p': Processor, maxSize: int)
    requires Conserved(p) && Next(p, Tick(now), p', maxSize)
    ensures Conserved(p')
  {
    forall x ensures p.admitted[x] == Places(p')[x] {
      SameCount(p.admitted, Places(p), x);
      TickConserves(p.queue, Unexpired(p.queue, now), now, x);
    }
    assert p.admitted == Places(p');
  }

  /** From the denied into the queue or out of reach, and perhaps another one evicted. */
  lemma RequeueBalances<T>(queue: multiset<T>, queue': multiset<T>, rest: multiset<T>, denied: multiset<T>, gone: multiset<T>,
                           evicted: multiset<T>, op: T, accepted: bool)
    requires op in denied && queue' + evicted == queue + (if accepted then multiset{op} else multiset{})
    ensures queue' + rest + (denied - multiset{op}) + (gone + evicted + if accepted then multiset{} else multiset{op})
         == queue + rest + denied + gone
  {
    forall x
      ensures queue'[x] + rest[x] + (denied - multiset{op})[x] + gone[x] + evicted[x] + (if accepted then 0 else multiset{op}[x])
           == queue[x] + rest[x] + denied[x] + gone[x] {
      SameCount(queue' + evicted, queue + if accepted then multiset{op} else multiset{}, x);
    }
  }

  lemma RequeueConserves(p: Processor, op: Operation, now: real, out: Enqueued, p': Processor, maxSize: int)
    requires Conserved(p) && Next(p, Requeue(op, now, out), p', maxSize)
    ensures Conserved(p')
  {
    EnqueueConserves(p, maxSize, op, p'.queue, out);
    var rest := p.inHand + multiset(p.executed);
    RequeueBalances(multiset(p.queue), multiset(p'.queue), rest, p.denied, p.gone, Evicted(out), op, out.Accepted?);
    PlacesRegrouped(p);
    PlacesRegrouped(p');
  }

  /** Steps that move one operation out of a goroutine's hands. */
  lemma HandStepConserves(p: Processor, step: Step, p': Processor, maxSize: int)
    requires Conserved(p) && Next(p, step, p', maxSize)
    requires step.Cancel? || step.Grant? || step.Deny? || step.Drop? || step.Direct?
    ensures Conserved(p')
  {
    if step.Grant? {
      assert multiset(p'.executed) == multiset(p.executed) + multiset{step.op};
    }
    assert p'.admitted == p.admitted;
  }

  lemma NextConserves(p: Processor, step: Step, p': Processor, maxSize: int)
    requires Conserved(p) && Next(p, step, p', maxSize)
    ensures Conserved(p')
  {
    match step
    case Submit(op, out) => SubmitConserves(p, op, out, p', maxSize);
    case Tick(now) => TickStepConserves(p, now, p', maxSize);
    case Requeue(op, now, out) => RequeueConserves(p, op, now, out, p', maxSize);
    case _ => HandStepConserves(p, step, p', maxSize);
  }

  lemma NextKeepsPaid(base: Processor, p: Processor, step: Step, p': Processor, maxSize: int)
    requires PaidSince(base, p) && Next(p, step, p', maxSize)
    ensures PaidSince(base, p')
  {
    if step.Grant? || step.Deny? || step.Direct? {
      RequestKeepsPaid(base, p, step.now, p');
    }
  }

  lemma NextKeepsQueue(p: Processor, step: Step, p': Processor, maxSize: int)
    requires Inv(p.queue, maxSize) && Next(p, step, p', maxSize)
    ensures Inv(p'.queue, maxSize)
  {
    match step
    case Submit(op, out) => EnqueueKeepsInv(p.queue, maxSize, op, p'.queue, out);
    case Requeue(op, _, out) => EnqueueKeepsInv(p.queue, maxSize, op, p'.queue, out);
    case Tick(now) => UnexpiredFacts(p.queue, now);
    case _ =>
  }

  /** A finite behaviour: states joined by steps. */
  ghost predicate IsBehaviour(states: seq<Processor>, steps: seq<Step>, maxSize: int) {
    && |states| == |steps| + 1 && Init(states[0])
    && forall i :: 0 <= i < |steps| ==> Next(states[i], steps[i], states[i + 1], maxSize)
  }

  lemma {:induction false} BehaviourKeepsInv(states: seq<Processor>, steps: seq<Step>, maxSize: int, k: nat)
    requires IsBehaviour(states, steps, maxSize) && k < |states|
    ensures Inv(states[k].queue, maxSize) && Conserved(states[k]) && PaidSince(states[0], states[k])
  {
    if k > 0 {
      BehaviourKeepsInv(states, steps, maxSize, k - 1);
      NextConserves(states[k - 1], steps[k - 1], states[k], maxSize);
      NextKeepsPaid(states[0], states[k - 1], steps[k - 1], states[k], maxSize);
      NextKeepsQueue(states[k - 1], steps[k - 1], states[k], maxSize);
    }
  }

  lemma {:induction false} WindowIsPaid(states: seq<Processor>, steps: seq<Step>, maxSize: int, j: nat, k: nat)
    requires IsBehaviour(states, steps, maxSize) && j <= k < |states| && TB.Inv(states[j].bucket)
    ensures PaidSince(states[j], states[k])
    decreases k
  {
    if j < k {
      WindowIsPaid(states, steps, maxSize, j, k - 1);
      NextKeepsPaid(states[j], states[k - 1], steps[k - 1], states[k], maxSize);
    }
  }

  /** In every interleaving each operation runs at most once, none that was cancelled,
      expired, evicted or dropped runs at all, and the executions stay within the token
      bucket's bound since creation. */
  lemma RunsAtMostOnceAndPaid(states: seq<Processor>, steps: seq<Step>, maxSize: int)
    requires IsBehaviour(states, steps, maxSize)
    ensures var p := states[|steps|];
      && Distinct(p.executed)
      && (forall op :: op in p.executed ==> op in p.admitted && op !in p.gone && op !in p.queue)
      && (p.calls != [] ==>
            |p.executed| as real <= TB.Size(states[0].bucket.capacity) as real
              + TB.EarnedBetween(states[0].bucket, states[0].bucket.lastRefill, p.calls[|p.calls| - 1]))
      && (p.calls == [] ==> p.executed == [])
  {
    BehaviourKeepsInv(states, steps, maxSize, |steps|);
    var p, b := states[|steps|], states[0].bucket;
    forall op ensures multiset(p.executed)[op] <= 1 {
      assert p.admitted[op] <= 1;
    }
    forall op | op in p.executed ensures op in p.admitted && op !in p.gone && op !in p.queue {
      assert multiset(p.executed)[op] >= 1;
    }
    forall i, j | 0 <= i < j < |p.executed| ensures p.executed[i] != p.executed[j] {
      CountedOnce(p.executed, i, j);
    }
    assert p.calls[0..] == p.calls;
    if p.calls != [] {
      TB.BoundFrom(b, p.calls);
    }
  }

  /** And in every window of the behaviour, whatever came before it: fewer executions than
      one more than the capacity plus what the rate earns between the window's first and
      last token request; none at all without a request. */
  lemma WindowIsBounded(states: seq<Processor>, steps: seq<Step>, maxSize: int, j: nat, k: nat)
    requires IsBehaviour(states, steps, maxSize) && j <= k < |states|
    ensures states[j].executed <= states[k].executed && states[j].calls <= states[k].calls
    ensures var window := states[k].calls[|states[j].calls|..];
      var runs := |states[k].executed| - |states[j].executed|;
      if window == [] then runs == 0
      else runs as real < TB.Size(states[0].bucket.capacity) as real
             + TB.EarnedBetween(states[0].bucket, window[0], window[|window| - 1]) + 1.0
  {
    BehaviourKeepsInv(states, steps, maxSize, j);
    WindowIsPaid(states, steps, maxSize, j, k);
    var window := states[k].calls[|states[j].calls|..];
    if window != [] {
      TB.BoundInWindow(states[j].bucket, window);
      TB.EarnedBetweenIsRateTimesTime(states[j].bucket, window[0], window[|window| - 1]);
      TB.EarnedBetweenIsRateTimesTime(states[0].bucket, window[0], window[|window| - 1]);
    }
  }

  // ----------------------------------------------------- how operations are lost, and how not

  /** The step takes the operation out of reach: it expired in the queue, gave way to
      another, was cancelled in hand, was refused when it came back, or was found at or
      past its deadline after it was denied. */
  ghost predicate Loses(p: Processor, step: Step, op: Operation) {
    match step
    case Submit(_, out) => out == Accepted(Some(op))
    case Tick(now) => op in p.queue && op.deadline <= now
    case Cancel(x) => x == op
    case Grant(_, _) => false
    case Deny(_, _) => false
    case Requeue(x, now, out) => out == Accepted(Some(op)) || (x == op && now < op.deadline && out == Rejected)
    case Drop(x, now) => x == op && op in p.denied && op.deadline <= now
    case Direct(_) => false
  }

  lemma TickLoses(p: Processor, now: real, p': Processor, maxSize: int, op: Operation)
    requires Conserved(p) && Next(p, Tick(now), p', maxSize)
    ensures op in p'.gone <==> op in p.gone || Loses(p, Tick(now), op)
  {
    var alive := Unexpired(p.queue, now);
    UnexpiredFacts(p.queue, now);
    assert multiset(p.queue)[op] <= 1 by {
      assert p.admitted[op] <= 1 && Places(p)[op] == p.admitted[op];
    }
    assert op in alive <==> multiset(alive)[op] > 0;
    assert op in p.queue <==> multiset(p.queue)[op] > 0;
  }

  lemma SubmitLoses(p: Processor, x: Operation, out: Enqueued, p': Processor, maxSize: int, op: Operation)
    requires Next(p, Submit(x, out), p', maxSize)
    ensures op in p'.gone <==> op in p.gone || Loses(p, Submit(x, out), op)
  {
    assert p'.gone == p.gone + Evicted(out);
    assert op in Evicted(out) <==> out == Accepted(Some(op));
  }

  lemma RequeueLoses(p: Processor, x: Operation, now: real, out: Enqueued, p': Processor, maxSize: int, op: Operation)
    requires Next(p, Requeue(x, now, out), p', maxSize)
    ensures op in p'.gone <==> op in p.gone || Loses(p, Requeue(x, now, out), op)
  {
    assert p'.gone == p.gone + Evicted(out) + if out.Accepted? then multiset{} else multiset{x};
    assert op in Evicted(out) <==> out == Accepted(Some(op));
  }

  lemma StepLoses(p: Processor, step: Step, p': Processor, maxSize: int, op: Operation)
    requires Conserved(p) && Next(p, step, p', maxSize)
    ensures op in p'.gone <==> op in p.gone || Loses(p, step, op)
  {
    match step
    case Submit(x, out) => SubmitLoses(p, x, out, p', maxSize, op);
    case Requeue(x, now, out) => RequeueLoses(p, x, now, out, p', maxSize, op);
    case Tick(now) => TickLoses(p, now, p', maxSize, op);
    case Cancel(_) =>
    case Grant(_, _) =>
    case Deny(_, _) =>
    case Drop(_, _) =>
    case Direct(_) =>
  }

  ghost predicate LosesAt(states: seq<Processor>, steps: seq<Step>, i: nat, op: Operation)
    requires i < |steps| && |states| == |steps| + 1
  {
    Loses(states[i], steps[i], op)
  }

  ghost predicate LostBefore(states: seq<Processor>, steps: seq<Step>, k: nat, op: Operation)
    requires k <= |steps| && |states| == |steps| + 1
  {
    exists i: nat :: i < k && LosesAt(states, steps, i, op)
  }

  lemma LostOneMore(states: seq<Processor>, steps: seq<Step>, k: nat, op: Operation)
    requires 0 < k <= |steps| && |states| == |steps| + 1
    ensures LostBefore(states, steps, k, op) <==> LostBefore(states, steps, k - 1, op) || Loses(states[k - 1], steps[k - 1], op)
  {
    if Loses(states[k - 1], steps[k - 1], op) {
      assert LosesAt(states, steps, k - 1, op);
    }
  }

  /** Over every behaviour an operation is out of reach exactly when some step lost it. */
  lemma {:induction false} GoneIff(states: seq<Processor>, steps: seq<Step>, maxSize: int, k: nat, op: Operation)
    requires IsBehaviour(states, steps, maxSize) && k < |states|
    ensures op in states[k].gone <==> LostBefore(states, steps, k, op)
  {
    if k > 0 {
      GoneIff(states, steps, maxSize, k - 1, op);
      BehaviourKeepsInv(states, steps, maxSize, k - 1);
      StepLoses(states[k - 1], steps[k - 1], states[k], maxSize, op);
      LostOneMore(states, steps, k, op);
    }
  }

  /** A tick hands over the best of the operations that have not expired, and the oldest of
      these; the others stay queued, in order.  Without one it only clears the queue. */
  lemma TickHandsBest(p: Processor, now: real, p': Processor, maxSize: int, x: Operation) returns (best: Operation)
    requires Inv(p.queue, maxSize) && Next(p, Tick(now), p', maxSize)
    requires x in p.queue && x.deadline > now
    ensures best in p.queue && best.deadline > now
    ensures p'.inHand == p.inHand + multiset{best} && [best] + p'.queue == Unexpired(p.queue, now)
    ensures best.priority.Rank() >= x.priority.Rank()
    ensures best.priority == x.priority ==> best.createdAt <= x.createdAt
  {
    UnexpiredFacts(p.queue, now);
    var alive := Unexpired(p.queue, now);
    assert x in alive;
    best := alive[0];
    DequeuesBestAndOldest(p.queue, maxSize, now, x);
    assert [alive[0]] + alive[1..] == alive;
  }

  /** The step refuses the operation a token. */
  ghost predicate Denies(p: Processor, step: Step, op: Operation) {
    step.Deny? && step.op == op && !TB.Succeeds(p.bucket, step.now)
  }

  /** The goroutine of a denied operation ends. */
  ghost predicate Returns(step: Step, op: Operation) {
    (step.Requeue? || step.Drop?) && step.op == op
  }

  ghost predicate DeniedSince(states: seq<Processor>, steps: seq<Step>, k: nat, i: nat, op: Operation)
    requires i < k <= |steps| && |states| == |steps| + 1
  {
    Denies(states[i], steps[i], op) && forall j :: i < j < k ==> !Returns(steps[j], op)
  }

  lemma OneOfEach(p: Processor, op: Operation)
    requires Conserved(p)
    ensures multiset(p.queue)[op] + p.inHand[op] + p.denied[op] + multiset(p.executed)[op] + p.gone[op] <= 1
  {
    assert p.admitted[op] == Places(p)[op];
  }

  lemma StepDenies(p: Processor, step: Step, p': Processor, maxSize: int, op: Operation)
    requires Conserved(p) && Next(p, step, p', maxSize)
    ensures op in p'.denied <==> Denies(p, step, op) || (op in p.denied && !Returns(step, op))
  {
    OneOfEach(p, op);
  }

  ghost predicate StillDenied(states: seq<Processor>, steps: seq<Step>, k: nat, op: Operation)
    requires k <= |steps| && |states| == |steps| + 1
  {
    exists i: nat :: i < k && DeniedSince(states, steps, k, i, op)
  }

  lemma DeniedOneMore(states: seq<Processor>, steps: seq<Step>, k: nat, op: Operation)
    requires 0 < k <= |steps| && |states| == |steps| + 1
    ensures StillDenied(states, steps, k, op)
       <==> Denies(states[k - 1], steps[k - 1], op) || (StillDenied(states, steps, k - 1, op) && !Returns(steps[k - 1], op))
  {
    if Denies(states[k - 1], steps[k - 1], op) {
      assert DeniedSince(states, steps, k, k - 1, op);
    } else if StillDenied(states, steps, k - 1, op) && !Returns(steps[k - 1], op) {
      var i: nat :| i < k - 1 && DeniedSince(states, steps, k - 1, i, op);
      assert DeniedSince(states, steps, k, i, op);
    }
    if StillDenied(states, steps, k, op) {
      var i: nat :| i < k && DeniedSince(states, steps, k, i, op);
      assert i < k - 1 ==> DeniedSince(states, steps, k - 1, i, op);
    }
  }

  /** Over every behaviour an operation waits to come back exactly when it was refused a
      token and its goroutine has not ended since. */
  lemma {:induction false} DeniedIff(states: seq<Processor>, steps: seq<Step>, maxSize: int, k: nat, op: Operation)
    requires IsBehaviour(states, steps, maxSize) && k < |states|
    ensures op in states[k].denied <==> StillDenied(states, steps, k, op)
  {
    if k > 0 {
      DeniedIff(states, steps, maxSize, k - 1, op);
      BehaviourKeepsInv(states, steps, maxSize, k - 1);
      StepDenies(states[k - 1], steps[k - 1], states[k], maxSize, op);
      DeniedOneMore(states, steps, k, op);
    }
  }

  /** A denied operation can be queued again at any time before its deadline, and is then
      in the queue, unless a full queue refused it. */
  lemma DeniedComesBack(p: Processor, op: Operation, now: real, maxSize: int) returns (p': Processor, out: Enqueued)
    requires Inv(p.queue, maxSize) && op in p.denied && now < op.deadline
    ensures Next(p, Requeue(op, now, out), p', maxSize)
    ensures forall q, o :: Next(p, Requeue(op, now, o), q, maxSize) ==>
      if o.Accepted? then op in q.queue else q.queue == p.queue && op in q.gone && |p.queue| >= maxSize
  {
    var queue;
    queue, out := EnqueueExists(p.queue, maxSize, op);
    p' := p.(queue := queue, denied := p.denied - multiset{op},
             gone := p.gone + Evicted(out) + if out.Accepted? then multiset{} else multiset{op});
    forall q, o | Next(p, Requeue(op, now, o), q, maxSize)
      ensures if o.Accepted? then op in q.queue else q.queue == p.queue && op in q.gone && |p.queue| >= maxSize {
      EnqueueKeepsInv(p.queue, maxSize, op, q.queue, o);
    }
  }
}
