/** The count-based sliding window, a ring buffer of outcomes, and the circuit breaker
    that reads it, for requests executed one after another. */
module OutcomeWindow {

  // ------------------------------------------------------- the window, as a history

  /** The outcomes the window still knows, of all since the last clear; true is success. */
  function Recent(history: seq<bool>, size: nat): seq<bool> {
    if |history| <= size then history else history[|history| - size..]
  }

  function Count(s: seq<bool>, outcome: bool): nat
    decreases |s|
  {
    if s == [] then 0
    else Count(s[..|s| - 1], outcome) + if s[|s| - 1] == outcome then 1 else 0
  }

  lemma {:induction false} CountBoth(s: seq<bool>)
    ensures Count(s, true) + Count(s, false) == |s|
    decreases |s|
  {
    if s != [] {
      CountBoth(s[..|s| - 1]);
    }
  }

  lemma {:induction false} CountJoined(a: seq<bool>, b: seq<bool>, outcome: bool)
    ensures Count(a + b, outcome) == Count(a, outcome) + Count(b, outcome)
    decreases |b|
  {
    if b == [] {
      assert a + b == a;
    } else {
      CountJoined(a, b[..|b| - 1], outcome);
      assert (a + b)[..|a + b| - 1] == a + b[..|b| - 1];
    }
  }

  // --------------------------------------------------------- the window, as a buffer

  /** Before the first wrap the slots up to `k` are the history; after it, the buffer read
      from `k` around is the history's last outcomes. */
  ghost predicate Remembers(buffer: seq<bool>, history: seq<bool>, k: nat, full: bool) {
    && k <= |buffer|
    && if full then |history| >= |buffer| && buffer[k..] + buffer[..k] == history[|history| - |buffer|..]
       else buffer[..k] == history
  }

  lemma RecordRemembers(buffer: seq<bool>, history: seq<bool>, k: nat, full: bool, success: bool)
    requires Remembers(buffer, history, k, full) && k < |buffer|
    ensures Remembers(buffer[k := success], history + [success], k + 1, full)
  {
    var later := buffer[k := success];
    assert later[..k + 1] == buffer[..k] + [success];
    if full {
      var n := |buffer|;
      assert later[k + 1..] == buffer[k..][1..];
      assert later[k + 1..] + later[..k + 1] == (buffer[k..] + buffer[..k])[1..] + [success];
      assert (history + [success])[|history| + 1 - n..] == history[|history| - n..][1..] + [success];
    }
  }

  lemma WrapRemembers(buffer: seq<bool>, history: seq<bool>, full: bool)
    requires Remembers(buffer, history, |buffer|, full)
    ensures Remembers(buffer, history, 0, true)
  {
    assert buffer[|buffer|..] + buffer[..|buffer|] == buffer;
    assert buffer[0..] + buffer[..0] == buffer;
    assert history[0..] == history;
  }

  class CountBasedWindow {
    const size: nat
    const successes: array<bool>
    var current: nat
    var full: bool
    ghost var history: seq<bool>

    ghost predicate Valid()
      reads this, successes
    {
      && successes.Length == size && current <= size && (size > 0 ==> current < size)
      && Remembers(successes[..], history, current, full)
    }

    constructor (size: nat)
      ensures Valid() && this.size == size && history == [] && fresh(successes)
    {
      this.size := size;
      successes := new bool[size](_ => false);
      current, full, history := 0, false, [];
    }

    /** A window of size zero has no slot to write to. */
    method Record(success: bool)
      requires Valid() && size > 0
      modifies this, successes
      ensures Valid() && history == old(history) + [success]
    {
      RecordRemembers(successes[..], history, current, full, success);
      successes[current] := success;
      assert successes[..] == old(successes[..])[current := success];
      history := history + [success];
      Advance();
    }

    method Advance()
      requires successes.Length == size && current < size
      requires Remembers(successes[..], history, current + 1, full)
      modifies this`current, this`full
      ensures Valid()
    {
      current := current + 1;
      if current >= size {
        WrapRemembers(successes[..], history, full);
        current, full := 0, true;
      }
    }

    method GetCounts() returns (succeeded: nat, failed: nat)
      requires Valid()
      ensures succeeded == Count(Recent(history, size), true)
      ensures failed == Count(Recent(history, size), false)
    {
      var limit := if full then size else current;
      succeeded, failed := 0, 0;
      for i := 0 to limit
        invariant succeeded == Count(successes[..i], true) && failed == Count(successes[..i], false)
      {
        assert successes[..i + 1][..i] == successes[..i];
        if successes[i] {
          succeeded := succeeded + 1;
        } else {
          failed := failed + 1;
        }
      }
      CountsRemembered(successes[..], history, current, full, true);
      CountsRemembered(successes[..], history, current, full, false);
      assert successes[..limit] == successes[..][..limit];
    }

    method GetFailureRate() returns (rate: real)
      requires Valid()
      ensures rate == Rate(Recent(history, size))
    {
      var succeeded, failed := GetCounts();
      CountBoth(Recent(history, size));
      var total := succeeded + failed;
      if total == 0 {
        return 0.0;
      }
      return failed as real / total as real;
    }

    method Clear()
      requires Valid()
      modifies this, successes
      ensures Valid() && history == []
    {
      for i := 0 to successes.Length
        modifies successes
      {
        successes[i] := false;
      }
      current, full, history := 0, false, [];
    }
  }

  lemma CountsRemembered(buffer: seq<bool>, history: seq<bool>, k: nat, full: bool, outcome: bool)
    requires Remembers(buffer, history, k, full)
    ensures Count(buffer[..if full then |buffer| else k], outcome) == Count(Recent(history, |buffer|), outcome)
  {
    if full {
      CountRotated(buffer, k, outcome);
      assert buffer[..|buffer|] == buffer;
      assert |history| == |buffer| ==> history[0..] == history;
    }
  }

  lemma CountRotated(s: seq<bool>, k: nat, outcome: bool)
    requires k <= |s|
    ensures Count(s[k..] + s[..k], outcome) == Count(s, outcome)
  {
    CountJoined(s[k..], s[..k], outcome);
    CountJoined(s[..k], s[k..], outcome);
    assert s[..k] + s[k..] == s;
  }

  // ----------------------------------------------------------- the breaker's decisions

  function Rate(recent: seq<bool>): real {
    if recent == [] then 0.0 else Count(recent, false) as real / |recent| as real
  }

  const WORD := 0x1_0000_0000

  /** Thresholds and limits are 32-bit words. */
  datatype Config = Config(size: nat, minRequestVolume: nat, failureThreshold: nat, failureRateThreshold: real,
                           successThreshold: nat, maxRequestsInHalfOpen: nat, openTimeout: int)

  ghost predicate ValidConfig(cfg: Config) {
    cfg.size > 0 && cfg.successThreshold < WORD && cfg.maxRequestsInHalfOpen < WORD
  }

  datatype State = Closed | Open | HalfOpen

  datatype Breaker = Breaker(state: State, history: seq<bool>, lastStateChange: int, generation: nat,
                             halfOpenRequests: nat, consecutiveSuccesses: nat)

  /** The test made on a failure: enough requests in the window, and too many failures or
      too high a share of them. */
  predicate Trips(cfg: Config, history: seq<bool>) {
    var recent := Recent(history, cfg.size);
    && |recent| >= cfg.minRequestVolume
    && (Count(recent, false) >= cfg.failureThreshold || Rate(recent) >= cfg.failureRateThreshold)
  }

  function Changed(b: Breaker, state: State, now: int): Breaker {
    b.(state := state, lastStateChange := now, generation := b.generation + 1, halfOpenRequests := 0, consecutiveSuccesses := 0)
  }

  predicate Admits(cfg: Config, b: Breaker, now: int) {
    match b.state
    case Closed => true
    case Open => now - b.lastStateChange >= cfg.openTimeout
    case HalfOpen => b.halfOpenRequests < cfg.maxRequestsInHalfOpen
  }

  function Before(cfg: Config, b: Breaker, now: int): Breaker {
    if !Admits(cfg, b, now) || b.state.Closed? then b
    else if b.state.Open? then Changed(b, HalfOpen, now)
    else b.(halfOpenRequests := (b.halfOpenRequests + 1) % WORD)
  }

  function Judged(cfg: Config, b: Breaker, now: int, failure: bool): Breaker {
    var streak := (b.consecutiveSuccesses + 1) % WORD;
    if failure then Changed(b, Open, now)
    else if streak >= cfg.successThreshold then Changed(b, Closed, now).(history := [])
    else b.(consecutiveSuccesses := streak)
  }

  function CountedOut(b: Breaker): Breaker {
    b.(halfOpenRequests := (b.halfOpenRequests + WORD - 1) % WORD)
  }

  /** The result of a half-open request, which is then counted out. */
  function Settled(cfg: Config, b: Breaker, now: int, failure: bool): Breaker {
    CountedOut(Judged(cfg, b, now, failure))
  }

  /** Going back to closed forgets the history; opening does not. */
  function After(cfg: Config, b: Breaker, now: int, failure: bool): Breaker {
    var b := b.(history := b.history + [!failure]);
    match b.state
    case Closed => if failure && Trips(cfg, b.history) then Changed(b, Open, now) else b
    case Open => b
    case HalfOpen => Settled(cfg, b, now, failure)
  }

  /** `Reset` also forgets the history; `ForceOpen` keeps it. */
  function Reset(b: Breaker, now: int): Breaker {
    Changed(b, Closed, now).(history := [])
  }

  function ForceOpen(b: Breaker, now: int): Breaker {
    Changed(b, Open, now)
  }

  /** A request begun at `start` and, if admitted, ended at `end`. */
  datatype Request = Request(start: int, end: int, failure: bool)

  function Executed(cfg: Config, b: Breaker, r: Request): Breaker {
    if Admits(cfg, b, r.start) then After(cfg, Before(cfg, b, r.start), r.end, r.failure) else b
  }

  class CircuitBreaker {
    const config: Config
    const window: CountBasedWindow
    var state: State
    var lastStateChange: int
    var generation: nat
    var halfOpenRequests: nat
    var consecutiveSuccesses: nat

    ghost predicate Valid()
      reads this, window, window.successes
    {
      ValidConfig(config) && window.Valid() && window.size == config.size
    }

    ghost function Value(): Breaker
      reads this, window
    {
      Breaker(state, window.history, lastStateChange, generation, halfOpenRequests, consecutiveSuccesses)
    }

    constructor (config: Config, now: int)
      requires ValidConfig(config)
      ensures Valid() && this.config == config && fresh(window) && fresh(window.successes)
      ensures Value() == Breaker(Closed, [], now, 0, 0, 0)
    {
      this.config := config;
      window := new CountBasedWindow(config.size);
      state, lastStateChange, generation := Closed, now, 0;
      halfOpenRequests, consecutiveSuccesses := 0, 0;
    }

    method TransitionTo(target: State, now: int)
      requires Valid()
      modifies this
      ensures Valid() && Value() == Changed(old(Value()), target, now)
    {
      state, lastStateChange, generation := target, now, generation + 1;
      halfOpenRequests, consecutiveSuccesses := 0, 0;
    }

    method BeforeRequest(now: int) returns (admitted: bool, issued: nat)
      requires Valid()
      modifies this
      ensures Valid() && admitted == Admits(config, old(Value()), now)
      ensures Value() == Before(config, old(Value()), now)
      ensures admitted ==> issued == generation
    {
      match state
      case Closed => return true, generation;
      case Open =>
        if now - lastStateChange >= config.openTimeout {
          TransitionTo(HalfOpen, now);
          return true, generation;
        }
        return false, 0;
      case HalfOpen =>
        if halfOpenRequests >= config.maxRequestsInHalfOpen {
          return false, 0;
        }
        halfOpenRequests := (halfOpenRequests + 1) % WORD;
        return true, generation;
    }

    method CheckTransitionToOpen(now: int)
      requires Valid()
      modifies this
      ensures Valid()
      ensures Value() == if Trips(config, old(window.history)) then Changed(old(Value()), Open, now) else old(Value())
    {
      var successes, failures := window.GetCounts();
      CountBoth(Recent(window.history, window.size));
      if successes + failures < config.minRequestVolume {
        return;
      }
      if failures >= config.failureThreshold {
        TransitionTo(Open, now);
        return;
      }
      var failureRate := window.GetFailureRate();
      if failureRate >= config.failureRateThreshold {
        TransitionTo(Open, now);
      }
    }

    method JudgeProbe(failure: bool, now: int)
      requires Valid() && state.HalfOpen?
      modifies this, window, window.successes
      ensures Valid() && Value() == Judged(config, old(Value()), now, failure)
    {
      if failure {
        TransitionTo(Open, now);
        return;
      }
      consecutiveSuccesses := (consecutiveSuccesses + 1) % WORD;
      if consecutiveSuccesses >= config.successThreshold {
        TransitionTo(Closed, now);
        window.Clear();
      }
    }

    method SettleProbe(failure: bool, now: int)
      requires Valid() && state.HalfOpen?
      modifies this, window, window.successes
      ensures Valid() && Value() == Settled(config, old(Value()), now, failure)
    {
      JudgeProbe(failure, now);
      halfOpenRequests := (halfOpenRequests + WORD - 1) % WORD;
    }

    /** A result from before a state change is dropped. */
    method AfterRequest(issued: nat, failure: bool, now: int)
      requires Valid()
      modifies this, window, window.successes
      ensures Valid()
      ensures Value() == if issued == old(generation) then After(config, old(Value()), now, failure) else old(Value())
    {
      if issued != generation {
        return;
      }
      window.Record(!failure);
      match state
      case Closed =>
        if failure {
          CheckTransitionToOpen(now);
        }
      case HalfOpen => SettleProbe(failure, now);
      case Open =>
    }

    method DoReset(now: int)
      requires Valid()
      modifies this, window, window.successes
      ensures Valid() && Value() == Reset(old(Value()), now)
    {
      TransitionTo(Closed, now);
      window.Clear();
    }

    method DoForceOpen(now: int)
      requires Valid()
      modifies this
      ensures Valid() && Value() == ForceOpen(old(Value()), now)
    {
      TransitionTo(Open, now);
    }

    method Execute(r: Request) returns (admitted: bool)
      requires Valid()
      modifies this, window, window.successes
      ensures Valid() && admitted == Admits(config, old(Value()), r.start)
      ensures Value() == Executed(config, old(Value()), r)
    {
      var issued;
      admitted, issued := BeforeRequest(r.start);
      if admitted {
        AfterRequest(issued, r.failure, r.end);
      }
    }
  }

  // --------------------------------------------------------------------- whole runs

  function Run(cfg: Config, b: Breaker, requests: seq<Request>): Breaker
    decreases |requests|
  {
    if requests == [] then b else Run(cfg, Executed(cfg, b, requests[0]), requests[1..])
  }

  function Outcomes(requests: seq<Request>): (outcomes: seq<bool>)
    ensures |outcomes| == |requests| && forall i :: 0 <= i < |requests| ==> outcomes[i] == !requests[i].failure
  {
    seq(|requests|, i requires 0 <= i < |requests| => !requests[i].failure)
  }

  /** No failure of the run finds the test met, on the history up to and with it. */
  ghost predicate NeverTrips(cfg: Config, history: seq<bool>, outcomes: seq<bool>) {
    forall k :: 0 <= k < |outcomes| && !outcomes[k] ==> !Trips(cfg, history + outcomes[..k + 1])
  }

  lemma NeverTripsRest(cfg: Config, history: seq<bool>, outcomes: seq<bool>)
    requires outcomes != [] && NeverTrips(cfg, history, outcomes)
    ensures NeverTrips(cfg, history + [outcomes[0]], outcomes[1..])
    ensures !outcomes[0] ==> !Trips(cfg, history + [outcomes[0]])
  {
    assert outcomes[..1] == [outcomes[0]];
    var first, rest := history + [outcomes[0]], outcomes[1..];
    forall k | 0 <= k < |rest| && !rest[k] ensures !Trips(cfg, first + rest[..k + 1]) {
      assert outcomes[k + 1] == rest[k];
      assert first + rest[..k + 1] == history + outcomes[..k + 2];
    }
  }

  lemma {:induction false} StaysClosed(cfg: Config, b: Breaker, requests: seq<Request>)
    requires b.state.Closed? && NeverTrips(cfg, b.history, Outcomes(requests))
    ensures Run(cfg, b, requests) == b.(history := b.history + Outcomes(requests))
    decreases |requests|
  {
    var outcomes := Outcomes(requests);
    if requests == [] {
      assert b.history + outcomes == b.history;
    } else {
      NeverTripsRest(cfg, b.history, outcomes);
      assert outcomes[1..] == Outcomes(requests[1..]);
      StaysClosed(cfg, Executed(cfg, b, requests[0]), requests[1..]);
      assert b.history + [outcomes[0]] + outcomes[1..] == b.history + outcomes;
    }
  }

  lemma NeverTripsOneMore(cfg: Config, history: seq<bool>, outcomes: seq<bool>, k: nat)
    requires k < |outcomes| && NeverTrips(cfg, history, outcomes[..k])
    ensures NeverTrips(cfg, history, outcomes[..k + 1]) <==> outcomes[k] || !Trips(cfg, history + outcomes[..k + 1])
  {
    var shorter, longer := outcomes[..k], outcomes[..k + 1];
    assert longer[..k + 1] == longer;
    forall j | 0 <= j < k ensures longer[..j + 1] == shorter[..j + 1] && longer[j] == shorter[j] {
    }
  }

  /** The breaker before request `k`, if no failure before it found the test met. */
  lemma ClosedUpTo(cfg: Config, b: Breaker, requests: seq<Request>, k: nat)
    requires b.state.Closed? && k < |requests| && NeverTrips(cfg, b.history, Outcomes(requests)[..k])
    ensures var before := b.(history := b.history + Outcomes(requests)[..k]);
      && Run(cfg, b, requests[..k]) == before
      && Run(cfg, b, requests[..k + 1]) == Executed(cfg, before, requests[k])
  {
    assert Outcomes(requests[..k]) == Outcomes(requests)[..k];
    StaysClosed(cfg, b, requests[..k]);
    RunOneMore(cfg, b, requests, k);
  }

  lemma ClosedThenExecuted(cfg: Config, b: Breaker, r: Request)
    requires b.state.Closed?
    ensures Executed(cfg, b, r).state.Open? <==> r.failure && Trips(cfg, b.history + [!r.failure])
    ensures Executed(cfg, b, r).state.Closed? <==> !Executed(cfg, b, r).state.Open?
  {
  }

  /** The run opens a closed breaker at request `k` exactly: at the first failure that
      finds the volume, count or rate test met on the last `size` outcomes. */
  lemma OpensExactly(cfg: Config, b: Breaker, requests: seq<Request>, k: nat)
    requires b.state.Closed? && k < |requests| && NeverTrips(cfg, b.history, Outcomes(requests)[..k])
    ensures var history := b.history + Outcomes(requests)[..k + 1];
      var after := Run(cfg, b, requests[..k + 1]);
      && Run(cfg, b, requests[..k]) == b.(history := b.history + Outcomes(requests)[..k])
      && (after.state.Open? <==> requests[k].failure && Trips(cfg, history))
      && (after.state.Closed? <==> NeverTrips(cfg, b.history, Outcomes(requests)[..k + 1]))
  {
    var outcomes := Outcomes(requests);
    ClosedUpTo(cfg, b, requests, k);
    ClosedThenExecuted(cfg, b.(history := b.history + outcomes[..k]), requests[k]);
    NeverTripsOneMore(cfg, b.history, outcomes, k);
    HistoryOneMore(b.history, outcomes, k);
  }

  lemma HistoryOneMore(history: seq<bool>, outcomes: seq<bool>, k: nat)
    requires k < |outcomes|
    ensures history + outcomes[..k] + [outcomes[k]] == history + outcomes[..k + 1]
  {
  }

  lemma {:induction false} RunOneMore(cfg: Config, b: Breaker, requests: seq<Request>, k: nat)
    requires k < |requests|
    ensures Run(cfg, b, requests[..k + 1]) == Executed(cfg, Run(cfg, b, requests[..k]), requests[k])
    decreases k
  {
    var longer := requests[..k + 1];
    if k == 0 {
      assert longer == [requests[0]] && longer[1..] == [];
    } else {
      RunOneMore(cfg, Executed(cfg, b, requests[0]), requests[1..], k - 1);
      assert longer[1..] == requests[1..][..k] && requests[..k][1..] == requests[1..][..k - 1];
      assert longer[0] == requests[..k][0] == requests[0];
    }
  }

  /** The places of the failures among the last `size` outcomes. */
  ghost function RecentFailures(history: seq<bool>, size: nat): set<nat> {
    set i: nat | i < |history| && i + size >= |history| && !history[i]
  }

  lemma {:induction false} CountIsSize(s: seq<bool>, offset: nat, places: set<nat>)
    requires forall i: nat :: i in places <==> offset <= i < offset + |s| && !s[i - offset]
    ensures Count(s, false) == |places|
    decreases |s|
  {
    if s == [] {
      assert places == {};
    } else {
      var n := |s| - 1;
      var last := offset + n;
      CountIsSize(s[..n], offset, places - {last});
      assert last in places ==> |places| == |places - {last}| + 1;
      assert last !in places ==> places - {last} == places;
    }
  }

  /** When a failure finds the test met: of the last `size` outcomes there are at least the
      minimum number, and the failures among them reach the threshold, or their share the
      rate. */
  lemma TripsMeans(cfg: Config, history: seq<bool>)
    ensures var total := if |history| <= cfg.size then |history| else cfg.size;
      var failed := |RecentFailures(history, cfg.size)|;
      Trips(cfg, history) <==>
        && total >= cfg.minRequestVolume
        && (failed >= cfg.failureThreshold
            || (if total == 0 then 0.0 else failed as real / total as real) >= cfg.failureRateThreshold)
  {
    var recent := Recent(history, cfg.size);
    CountIsSize(recent, |history| - |recent|, RecentFailures(history, cfg.size));
  }

  /** What an admitted half-open request does: a failure opens the breaker again from its
      end on, the last of the needed successes closes it with nothing remembered, and any
      other success is counted. */
  lemma ProbeMeans(cfg: Config, b: Breaker, r: Request)
    requires ValidConfig(cfg) && b.state.HalfOpen? && b.halfOpenRequests < cfg.maxRequestsInHalfOpen
    requires b.consecutiveSuccesses + 1 < WORD
    ensures var after := Executed(cfg, b, r);
      if r.failure then
        after.state.Open? && after.lastStateChange == r.end && after.generation == b.generation + 1 && after.consecutiveSuccesses == 0
      else if b.consecutiveSuccesses + 1 >= cfg.successThreshold then
        after.state.Closed? && after.history == [] && after.generation == b.generation + 1 && after.consecutiveSuccesses == 0
      else
        after.state.HalfOpen? && after.generation == b.generation && after.consecutiveSuccesses == b.consecutiveSuccesses + 1
        && after.history == b.history + [true] && after.halfOpenRequests == b.halfOpenRequests
  {
  }

  /** After a reset, and likewise after closing, the past is forgotten: whatever the window
      held, fewer requests than the minimum volume never open the breaker. */
  lemma ForgottenStartsOver(cfg: Config, b: Breaker, now: int, requests: seq<Request>)
    requires |requests| < cfg.minRequestVolume
    ensures Reset(b, now).state.Closed? && Run(cfg, Reset(b, now), requests).state.Closed?
    ensures b.state.Closed? && b.history == [] ==> Run(cfg, b, requests).state.Closed?
  {
    NothingTripsYet(cfg, Outcomes(requests));
    StaysClosed(cfg, Reset(b, now), requests);
    if b.state.Closed? && b.history == [] {
      StaysClosed(cfg, b, requests);
    }
  }

  lemma NothingTripsYet(cfg: Config, outcomes: seq<bool>)
    requires |outcomes| < cfg.minRequestVolume
    ensures NeverTrips(cfg, [], outcomes)
  {
    forall k | 0 <= k < |outcomes| && !outcomes[k] ensures !Trips(cfg, [] + outcomes[..k + 1]) {
      assert |[] + outcomes[..k + 1]| == k + 1;
    }
  }

  ghost predicate AllBegunBefore(requests: seq<Request>, time: int) {
    forall i :: 0 <= i < |requests| ==> requests[i].start < time
  }

  lemma {:induction false} OpenWaits(cfg: Config, b: Breaker, requests: seq<Request>, since: int)
    requires b.state.Open? && b.lastStateChange == since && AllBegunBefore(requests, since + cfg.openTimeout)
    ensures Run(cfg, b, requests) == b
    decreases |requests|
  {
    if requests != [] {
      assert requests[0].start < since + cfg.openTimeout && AllBegunBefore(requests[1..], since + cfg.openTimeout);
      OpenWaits(cfg, b, requests[1..], since);
    }
  }

  /** A request that opens the breaker, from whatever state, starts its timeout when it
      ends: nothing that begins before the timeout is over is admitted or changes anything,
      and the first request after that is. */
  lemma OpenedCoolsDown(cfg: Config, b: Breaker, r: Request, early: seq<Request>, t: int)
    requires ValidConfig(cfg) && Admits(cfg, b, r.start) && Executed(cfg, b, r).state.Open?
    requires AllBegunBefore(early, r.end + cfg.openTimeout)
    ensures var after := Executed(cfg, b, r);
      Run(cfg, after, early) == after && (Admits(cfg, after, t) <==> t >= r.end + cfg.openTimeout)
  {
    OpenWaits(cfg, Executed(cfg, b, r), early, r.end);
  }

  // ------------------------------------------------------------ recovery, one by one

  datatype Event = Call(request: Request) | ResetAt(now: int) | ForceOpenAt(now: int)

  function Effect(cfg: Config, b: Breaker, e: Event): Breaker {
    match e
    case Call(r) => Executed(cfg, b, r)
    case ResetAt(now) => Reset(b, now)
    case ForceOpenAt(now) => ForceOpen(b, now)
  }

  function Outcome(cfg: Config, b: Breaker, events: seq<Event>): Breaker
    decreases |events|
  {
    if events == [] then b else Outcome(cfg, Effect(cfg, b, events[0]), events[1..])
  }

  /** The counter of half-open requests has wrapped below zero. */
  ghost predicate Stuck(b: Breaker) {
    b.state.HalfOpen? && b.halfOpenRequests == WORD - 1
  }

  ghost predicate OnlyCalls(events: seq<Event>) {
    forall i :: 0 <= i < |events| ==> events[i].Call?
  }

  lemma {:induction false} GenerationGrows(cfg: Config, b: Breaker, events: seq<Event>)
    ensures b.generation <= Outcome(cfg, b, events).generation
    decreases |events|
  {
    if events != [] {
      GenerationGrows(cfg, Effect(cfg, b, events[0]), events[1..]);
    }
  }

  /** Whatever is requested and when, a stuck breaker admits nothing and stays as it is,
      exactly as long as nobody calls `Reset` or `ForceOpen`. */
  lemma {:induction false} StuckUntilForced(cfg: Config, b: Breaker, events: seq<Event>)
    requires ValidConfig(cfg) && Stuck(b)
    ensures forall now :: !Admits(cfg, b, now)
    ensures Outcome(cfg, b, events) == b <==> OnlyCalls(events)
    decreases |events|
  {
    if events != [] {
      if events[0].Call? {
        StuckUntilForced(cfg, b, events[1..]);
        assert OnlyCalls(events) <==> OnlyCalls(events[1..]);
      } else {
        GenerationGrows(cfg, Effect(cfg, b, events[0]), events[1..]);
      }
    }
  }

  /** Requests that succeed and openings by force, in any order. */
  ghost predicate GoWell(events: seq<Event>) {
    forall i :: 0 <= i < |events| ==> !events[i].ResetAt? && (events[i].Call? ==> !events[i].request.failure)
  }

  ghost predicate CanClose(cfg: Config, b: Breaker) {
    exists events :: GoWell(events) && Outcome(cfg, b, events).state.Closed?
  }

  /** A success finds the breaker open and the timeout over, and leaves it stuck. */
  lemma {:induction false} SuccessesFromOpen(cfg: Config, b: Breaker, events: seq<Event>)
    requires ValidConfig(cfg) && (b.state.Open? || Stuck(b)) && GoWell(events) && cfg.successThreshold > 1
    ensures var after := Outcome(cfg, b, events); after.state.Open? || Stuck(after)
    decreases |events|
  {
    if events != [] {
      SuccessesFromOpen(cfg, Effect(cfg, b, events[0]), events[1..]);
    }
  }

  /** The probe that leads out of the open state is not counted on the way in and is
      counted out, so with requests one at a time and short of `Reset` successes close an
      open breaker exactly when one success is enough.  Otherwise the first success leaves
      it half-open with the counter at its maximum. */
  lemma ClosesAgainIff(cfg: Config, b: Breaker)
    requires ValidConfig(cfg) && b.state.Open?
    ensures CanClose(cfg, b) <==> cfg.successThreshold <= 1
  {
    if cfg.successThreshold <= 1 {
      var at := b.lastStateChange + cfg.openTimeout;
      var e := Call(Request(at, at, false));
      assert Effect(cfg, b, e).state.Closed?;
      assert Outcome(cfg, b, [e]) == Outcome(cfg, Effect(cfg, b, e), [e][1..]);
      assert GoWell([e]) && Outcome(cfg, b, [e]).state.Closed?;
    } else {
      forall events | GoWell(events) ensures !Outcome(cfg, b, events).state.Closed? {
        SuccessesFromOpen(cfg, b, events);
      }
    }
  }
}
