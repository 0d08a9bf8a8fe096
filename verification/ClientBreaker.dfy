/** The generation-based circuit breaker of the HTTP client.  Admission and result are
    separate locked steps, so any number of requests may be in flight across state
    changes.  Every step takes the clock reading as a parameter. */
module ClientBreaker {
  import opened Wrappers

  datatype State = Closed | HalfOpen | Open

  /** `uint32` counters are unbounded here.  A zero interval never expires. */
  datatype Config = Config(maxRequests: nat, interval: int, timeout: int, failureThreshold: nat, successThreshold: nat)

  datatype Counts = Counts(
    requests: nat, totalSuccesses: nat, totalFailures: nat,
    consecutiveSuccesses: nat, consecutiveFailures: nat)

  const CLEARED := Counts(0, 0, 0, 0, 0)

  /** `expiry` is `None` for Go's zero time. */
  datatype Breaker = Breaker(state: State, counts: Counts, expiry: Option<int>, generation: nat)

  datatype Admission = Admitted | RejectedOpen | RejectedTooMany

  const FRESH := Breaker(Closed, CLEARED, None, 0)

  // ---------------------------------------------------------------- specification

  function OnRequest(c: Counts): Counts {
    c.(requests := c.requests + 1)
  }

  function OnSuccess(c: Counts): Counts {
    c.(totalSuccesses := c.totalSuccesses + 1, consecutiveSuccesses := c.consecutiveSuccesses + 1, consecutiveFailures := 0)
  }

  function OnFailure(c: Counts): Counts {
    c.(totalFailures := c.totalFailures + 1, consecutiveFailures := c.consecutiveFailures + 1, consecutiveSuccesses := 0)
  }

  function NewGeneration(cfg: Config, b: Breaker, now: int): Breaker {
    var expiry := match b.state
      case Closed => if cfg.interval == 0 then None else Some(now + cfg.interval)
      case Open => Some(now + cfg.timeout)
      case HalfOpen => None;
    Breaker(b.state, CLEARED, expiry, b.generation + 1)
  }

  function SetState(cfg: Config, b: Breaker, state: State, now: int): Breaker {
    if b.state == state then b else NewGeneration(cfg, b.(state := state), now)
  }

  predicate Expired(b: Breaker, now: int) {
    match b.state
    case Closed => b.expiry.Some? && b.expiry.value < now
    case Open => b.expiry.None? || b.expiry.value < now
    case HalfOpen => false
  }

  /** What the clock alone changes. */
  function Advance(cfg: Config, b: Breaker, now: int): Breaker {
    if !Expired(b, now) then b
    else if b.state == Open then SetState(cfg, b, HalfOpen, now)
    else NewGeneration(cfg, b, now)
  }

  function AdmissionOf(cfg: Config, b: Breaker): Admission {
    if b.state == Open then RejectedOpen
    else if b.state == HalfOpen && b.counts.requests >= cfg.maxRequests then RejectedTooMany
    else Admitted
  }

  function Admit(cfg: Config, b: Breaker): Breaker {
    if AdmissionOf(cfg, b) == Admitted then b.(counts := OnRequest(b.counts)) else b
  }

  function BeforeRequest(cfg: Config, b: Breaker, now: int): Breaker {
    Admit(cfg, Advance(cfg, b, now))
  }

  /** The effect of a result that belongs to the current generation. */
  function Settle(cfg: Config, b: Breaker, success: bool, now: int): Breaker {
    var b := Counted(b, success);
    if success then
      if b.state == HalfOpen && b.counts.consecutiveSuccesses >= cfg.successThreshold then SetState(cfg, b, Closed, now) else b
    else
      if b.state == HalfOpen || (b.state == Closed && b.counts.consecutiveFailures >= cfg.failureThreshold)
      then SetState(cfg, b, Open, now) else b
  }

  function Counted(b: Breaker, success: bool): Breaker {
    b.(counts := if success then OnSuccess(b.counts) else OnFailure(b.counts))
  }

  function AfterRequest(cfg: Config, b: Breaker, token: nat, success: bool, now: int): Breaker {
    var b := Advance(cfg, b, now);
    if b.generation != token then b else Settle(cfg, b, success, now)
  }

  /** `Reset` reads the clock twice. */
  function Reset(cfg: Config, b: Breaker, now: int, later: int): Breaker {
    SetState(cfg, NewGeneration(cfg, b, now), Closed, later)
  }

  function Trip(cfg: Config, b: Breaker, now: int): Breaker {
    SetState(cfg, b, Open, now)
  }

  // --------------------------------------------------------------- implementation

  class CircuitBreaker {
    const config: Config
    var state: State
    var counts: Counts
    var expiry: Option<int>
    var generation: nat

    ghost function Value(): Breaker
      reads this
    {
      Breaker(state, counts, expiry, generation)
    }

    constructor (config: Config)
      ensures this.config == config && Value() == FRESH
    {
      this.config := config;
      state := Closed;
      counts := CLEARED;
      expiry := None;
      generation := 0;
    }

    method ToNewGeneration(now: int)
      modifies this
      ensures Value() == NewGeneration(config, old(Value()), now)
    {
      generation := generation + 1;
      counts := CLEARED;
      match state {
        case Closed =>
          if config.interval == 0 {
            expiry := None;
          } else {
            expiry := Some(now + config.interval);
          }
        case Open => expiry := Some(now + config.timeout);
        case HalfOpen => expiry := None;
      }
    }

    method ChangeState(to: State, now: int)
      modifies this
      ensures Value() == SetState(config, old(Value()), to, now)
    {
      if state == to {
        return;
      }
      state := to;
      ToNewGeneration(now);
    }

    method CurrentState(now: int)
      modifies this
      ensures Value() == Advance(config, old(Value()), now)
    {
      match state {
        case Closed =>
          if expiry.Some? && expiry.value < now {
            ToNewGeneration(now);
          }
        case Open =>
          if expiry.None? || expiry.value < now {
            ChangeState(HalfOpen, now);
          }
        case HalfOpen =>
      }
    }

    /** `Allow` of the two-step breaker hands out the token this returns. */
    method Before(now: int) returns (token: nat, admission: Admission)
      modifies this
      ensures Value() == BeforeRequest(config, old(Value()), now)
      ensures admission == AdmissionOf(config, Advance(config, old(Value()), now))
      ensures token == generation
    {
      CurrentState(now);
      token := generation;
      if state == Open {
        return token, RejectedOpen;
      } else if state == HalfOpen && counts.requests >= config.maxRequests {
        return token, RejectedTooMany;
      }
      counts := OnRequest(counts);
      admission := Admitted;
    }

    method After(token: nat, success: bool, now: int)
      modifies this
      ensures Value() == AfterRequest(config, old(Value()), token, success, now)
    {
      CurrentState(now);
      if generation != token {
        return;
      }
      if success {
        counts := OnSuccess(counts);
        if state == HalfOpen && counts.consecutiveSuccesses >= config.successThreshold {
          ChangeState(Closed, now);
        }
      } else {
        counts := OnFailure(counts);
        match state {
          case Closed =>
            if counts.consecutiveFailures >= config.failureThreshold {
              ChangeState(Open, now);
            }
          case HalfOpen => ChangeState(Open, now);
          case Open =>
        }
      }
    }

    method DoReset(now: int, later: int)
      modifies this
      ensures Value() == Reset(config, old(Value()), now, later)
      ensures state == Closed && counts == Counts(0, 0, 0, 0, 0) && generation > old(generation)
    {
      ToNewGeneration(now);
      ChangeState(Closed, later);
    }

    method DoTrip(now: int)
      modifies this
      ensures Value() == Trip(config, old(Value()), now)
    {
      ChangeState(Open, now);
    }
  }

  // -------------------------------------------------------------------- runs

  datatype Event =
    | Request(now: int)
    | Result(token: nat, success: bool, now: int)
    | Observe(now: int)
    | ResetAt(now: int, later: int)
    | TripAt(now: int)

  /** The breaker with the history a bystander would keep: requests still in flight by
      the generation they carry, every admission ever, the results accepted by the
      current generation, and the generations that were half-open. */
  datatype World = World(
    b: Breaker,
    inflight: multiset<nat>,
    admitted: seq<nat>,
    results: seq<bool>,
    halfOpen: set<nat>)

  const START := World(FRESH, multiset{}, [], [], {})

  ghost predicate Enabled(w: World, e: Event) {
    e.Result? ==> e.token in w.inflight
  }

  ghost function Move(w: World, b: Breaker): World {
    w.(b := b,
       results := if b.generation == w.b.generation then w.results else [],
       halfOpen := if b.state == HalfOpen then w.halfOpen + {b.generation} else w.halfOpen)
  }

  /** One event; a result consumes its token, whichever generation it belongs to. */
  ghost function Next(cfg: Config, w: World, e: Event): World
    requires Enabled(w, e)
  {
    match e
    case Request(now) =>
      var w := Move(w, Advance(cfg, w.b, now));
      if AdmissionOf(cfg, w.b) == Admitted then
        var g := w.b.generation;
        w.(b := Admit(cfg, w.b), inflight := w.inflight + multiset{g}, admitted := w.admitted + [g])
      else w
    case Result(token, success, now) =>
      var w := Move(w, Advance(cfg, w.b, now)).(inflight := w.inflight - multiset{token});
      if w.b.generation == token then
        Move(w.(b := Counted(w.b, success), results := w.results + [success]), Settle(cfg, w.b, success, now))
      else w
    case Observe(now) => Move(w, Advance(cfg, w.b, now))
    case ResetAt(now, later) => Move(w, Reset(cfg, w.b, now, later))
    case TripAt(now) => Move(w, Trip(cfg, w.b, now))
  }

  /** What the methods do to the breaker itself. */
  function Effect(cfg: Config, b: Breaker, e: Event): Breaker {
    match e
    case Request(now) => BeforeRequest(cfg, b, now)
    case Result(token, success, now) => AfterRequest(cfg, b, token, success, now)
    case Observe(now) => Advance(cfg, b, now)
    case ResetAt(now, later) => Reset(cfg, b, now, later)
    case TripAt(now) => Trip(cfg, b, now)
  }

  /** The history kept beside the breaker does not influence it. */
  lemma NextHasEffect(cfg: Config, w: World, e: Event)
    requires Enabled(w, e)
    ensures Next(cfg, w, e).b == Effect(cfg, w.b, e)
  {
  }

  /** A sequence of events, each possible when it happens. */
  ghost predicate IsRun(cfg: Config, w: World, run: seq<Event>)
    decreases |run|
  {
    run == [] || (Enabled(w, run[0]) && IsRun(cfg, Next(cfg, w, run[0]), run[1..]))
  }

  ghost function Final(cfg: Config, w: World, run: seq<Event>): World
    requires IsRun(cfg, w, run)
    decreases |run|
  {
    if run == [] then w else Final(cfg, Next(cfg, w, run[0]), run[1..])
  }

  // -------------------------------------------------------------- invariant

  function AtLeastOne(n: nat): nat {
    if n == 0 then 1 else n
  }

  /** How many results at the end of the history equal `v`. */
  function Streak(results: seq<bool>, v: bool): nat {
    if results == [] || results[|results| - 1] != v then 0 else 1 + Streak(results[..|results| - 1], v)
  }

  ghost predicate LastAre(results: seq<bool>, n: nat, v: bool) {
    |results| >= n && forall i :: |results| - n <= i < |results| ==> results[i] == v
  }

  lemma {:induction false} StreakMeaning(results: seq<bool>, n: nat, v: bool)
    ensures Streak(results, v) >= n <==> LastAre(results, n, v)
  {
    if results != [] && n > 0 {
      var init := results[..|results| - 1];
      StreakMeaning(init, n - 1, v);
      if results[|results| - 1] == v && LastAre(init, n - 1, v) {
        forall i | |results| - n <= i < |results| ensures results[i] == v {
          if i < |init| { assert init[i] == v; }
        }
      }
      if LastAre(results, n, v) {
        assert results[|results| - 1] == v;
        forall i | |init| - (n - 1) <= i < |init| ensures init[i] == v {
          assert results[i] == v;
        }
      }
    }
  }

  ghost predicate CountsMatch(c: Counts, results: seq<bool>) {
    && c.totalSuccesses == multiset(results)[true]
    && c.totalFailures == multiset(results)[false]
    && c.consecutiveSuccesses == Streak(results, true)
    && c.consecutiveFailures == Streak(results, false)
  }

  /** What the counters mean: each request of the generation has succeeded, failed or
      is still in flight, and every counter is read off the accepted results. */
  ghost predicate Accounted(w: World) {
    && w.b.counts.requests == w.b.counts.totalSuccesses + w.b.counts.totalFailures + w.inflight[w.b.generation]
    && w.b.counts.requests == multiset(w.admitted)[w.b.generation]
    && CountsMatch(w.b.counts, w.results)
  }

  ghost predicate StateFacts(cfg: Config, b: Breaker) {
    match b.state
    case Closed => b.counts.consecutiveFailures < AtLeastOne(cfg.failureThreshold)
    case Open => b.counts == CLEARED && b.expiry.Some?
    case HalfOpen =>
      && b.counts.requests <= cfg.maxRequests
      && b.counts.totalFailures == 0
      && b.counts.consecutiveSuccesses == b.counts.totalSuccesses < AtLeastOne(cfg.successThreshold)
  }

  /** No token or admission is ahead of the breaker; a half-open generation is marked,
      and never admitted more than the limit. */
  ghost predicate Generations(cfg: Config, w: World) {
    && (forall g :: g > w.b.generation ==> w.inflight[g] == 0 && multiset(w.admitted)[g] == 0)
    && (forall g :: g in w.halfOpen ==> g <= w.b.generation && multiset(w.admitted)[g] <= cfg.maxRequests)
    && (w.b.generation in w.halfOpen <==> w.b.state == HalfOpen)
  }

  ghost predicate Inv(cfg: Config, w: World) {
    Accounted(w) && StateFacts(cfg, w.b) && Generations(cfg, w)
  }

  /** A step into a later generation starts it clean. */
  lemma NewGenerationKeepsInv(cfg: Config, w: World, b: Breaker)
    requires Generations(cfg, w)
    requires b.generation > w.b.generation && b.counts == CLEARED && (b.state == Open ==> b.expiry.Some?)
    ensures Inv(cfg, Move(w, b))
  {
  }

  lemma AdvanceKeepsInv(cfg: Config, w: World, now: int)
    requires Inv(cfg, w)
    ensures Inv(cfg, Move(w, Advance(cfg, w.b, now)))
  {
    var b := Advance(cfg, w.b, now);
    if b != w.b {
      NewGenerationKeepsInv(cfg, w, b);
    }
  }

  lemma AdmitKeepsInv(cfg: Config, w: World)
    requires Inv(cfg, w) && AdmissionOf(cfg, w.b) == Admitted
    ensures var g := w.b.generation;
      Inv(cfg, w.(b := Admit(cfg, w.b), inflight := w.inflight + multiset{g}, admitted := w.admitted + [g]))
  {
    var admitted := w.admitted + [w.b.generation];
    assert multiset(admitted) == multiset(w.admitted) + multiset{w.b.generation};
  }

  lemma StreakAppend(results: seq<bool>, r: bool)
    ensures Streak(results + [r], r) == Streak(results, r) + 1
    ensures Streak(results + [r], !r) == 0
    ensures multiset(results + [r]) == multiset(results) + multiset{r}
  {
    assert (results + [r])[..|results|] == results;
  }

  ghost function Taken(w: World, success: bool): World {
    w.(b := Counted(w.b, success), inflight := w.inflight - multiset{w.b.generation}, results := w.results + [success])
  }

  lemma CountedMatches(b: Breaker, results: seq<bool>, success: bool)
    requires CountsMatch(b.counts, results)
    ensures CountsMatch(Counted(b, success).counts, results + [success])
  {
    StreakAppend(results, success);
  }

  lemma TakenKeepsGenerations(cfg: Config, w: World, success: bool)
    requires Generations(cfg, w) && w.b.generation in w.inflight
    ensures Generations(cfg, Taken(w, success))
  {
    var w' := Taken(w, success);
    assert forall g :: w'.inflight[g] <= w.inflight[g];
  }

  lemma TakenIsAccounted(cfg: Config, w: World, success: bool)
    requires Inv(cfg, w) && w.b.generation in w.inflight
    ensures Accounted(Taken(w, success)) && Generations(cfg, Taken(w, success))
  {
    CountedMatches(w.b, w.results, success);
    TakenKeepsGenerations(cfg, w, success);
    assert Taken(w, success).inflight[w.b.generation] == w.inflight[w.b.generation] - 1;
  }

  lemma StayingKeepsFacts(cfg: Config, b: Breaker, success: bool, now: int)
    requires StateFacts(cfg, b) && b.state != Open
    requires Settle(cfg, b, success, now).generation == b.generation
    ensures Settle(cfg, b, success, now) == Counted(b, success)
    ensures StateFacts(cfg, Counted(b, success))
  {
  }

  lemma SettleKeepsInv(cfg: Config, w: World, success: bool, now: int)
    requires Inv(cfg, w) && w.b.generation in w.inflight
    ensures Inv(cfg, Move(Taken(w, success), Settle(cfg, w.b, success, now)))
  {
    TakenIsAccounted(cfg, w, success);
    var b := Settle(cfg, w.b, success, now);
    if b.generation == w.b.generation {
      StayingKeepsFacts(cfg, w.b, success, now);
      assert Move(Taken(w, success), b) == Taken(w, success);
    } else {
      SettledIsNew(cfg, w.b, success, now);
      NewGenerationKeepsInv(cfg, Taken(w, success), b);
    }
  }

  lemma SettledIsNew(cfg: Config, b: Breaker, success: bool, now: int)
    requires Settle(cfg, b, success, now).generation != b.generation
    ensures var b' := Settle(cfg, b, success, now);
      b'.generation > b.generation && b'.counts == CLEARED && (b'.state == Open ==> b'.expiry.Some?)
  {
  }

  lemma RequestKeepsInv(cfg: Config, w: World, now: int)
    requires Inv(cfg, w)
    ensures Inv(cfg, Next(cfg, w, Request(now)))
  {
    AdvanceKeepsInv(cfg, w, now);
    var w1 := Move(w, Advance(cfg, w.b, now));
    if AdmissionOf(cfg, w1.b) == Admitted {
      AdmitKeepsInv(cfg, w1);
    }
  }

  /** A token that is not current leaves, with no other effect. */
  lemma DropStale(cfg: Config, w: World, token: nat)
    requires Inv(cfg, w) && token != w.b.generation
    ensures Inv(cfg, w.(inflight := w.inflight - multiset{token}))
  {
  }

  lemma ResultKeepsInv(cfg: Config, w: World, token: nat, success: bool, now: int)
    requires Inv(cfg, w) && token in w.inflight
    ensures Inv(cfg, Next(cfg, w, Result(token, success, now)))
  {
    AdvanceKeepsInv(cfg, w, now);
    var w1 := Move(w, Advance(cfg, w.b, now));
    if w1.b.generation == token {
      SettleKeepsInv(cfg, w1, success, now);
    } else {
      DropStale(cfg, w1, token);
    }
  }

  lemma NextKeepsInv(cfg: Config, w: World, e: Event)
    requires Inv(cfg, w) && Enabled(w, e)
    ensures Inv(cfg, Next(cfg, w, e))
  {
    match e
    case Request(now) => RequestKeepsInv(cfg, w, now);
    case Result(token, success, now) => ResultKeepsInv(cfg, w, token, success, now);
    case Observe(now) => AdvanceKeepsInv(cfg, w, now);
    case ResetAt(now, later) => NewGenerationKeepsInv(cfg, w, Reset(cfg, w.b, now, later));
    case TripAt(now) =>
      if w.b.state != Open {
        NewGenerationKeepsInv(cfg, w, Trip(cfg, w.b, now));
      }
  }

  lemma {:induction false} RunKeepsInv(cfg: Config, w: World, run: seq<Event>)
    requires Inv(cfg, w) && IsRun(cfg, w, run)
    ensures Inv(cfg, Final(cfg, w, run))
    decreases |run|
  {
    if run != [] {
      NextKeepsInv(cfg, w, run[0]);
      RunKeepsInv(cfg, Next(cfg, w, run[0]), run[1..]);
    }
  }

  // ------------------------------------------------------------ main results

  /** In every interleaving the counters are exact and a half-open generation admits at
      most `maxRequests` requests over its whole life. */
  lemma EveryRunIsAccounted(cfg: Config, run: seq<Event>)
    requires IsRun(cfg, START, run)
    ensures var w := Final(cfg, START, run);
      && Inv(cfg, w)
      && w.b.counts.requests == multiset(w.results)[true] + multiset(w.results)[false] + w.inflight[w.b.generation]
      && forall g :: g in w.halfOpen ==> multiset(w.admitted)[g] <= cfg.maxRequests
  {
    RunKeepsInv(cfg, START, run);
  }

  /** A result of an older generation changes nothing the clock would not change. */
  lemma StaleResultIsIgnored(cfg: Config, w: World, token: nat, success: bool, now: int)
    requires Inv(cfg, w) && token in w.inflight && token != w.b.generation
    ensures token < w.b.generation
    ensures AfterRequest(cfg, w.b, token, success, now) == Advance(cfg, w.b, now)
    ensures Next(cfg, w, Result(token, success, now))
         == Next(cfg, w, Observe(now)).(inflight := w.inflight - multiset{token})
  {
    assert w.inflight[token] > 0;
  }

  /** A current result trips a closed breaker exactly when the last
      max(1, failureThreshold) results of the generation, this one included, failed. */
  lemma TripsExactly(cfg: Config, w: World, success: bool, now: int)
    requires Inv(cfg, w) && w.b.state == Closed && !Expired(w.b, now)
    ensures var after := AfterRequest(cfg, w.b, w.b.generation, success, now).state;
      && (after == Open <==> LastAre(w.results + [success], AtLeastOne(cfg.failureThreshold), false))
      && (after == Open || after == Closed)
  {
    StreakAppend(w.results, success);
    StreakMeaning(w.results + [success], AtLeastOne(cfg.failureThreshold), false);
  }

  /** A current result closes a half-open breaker exactly when it completes
      max(1, successThreshold) successes and nothing failed; any failure reopens it. */
  lemma ClosesExactly(cfg: Config, w: World, success: bool, now: int)
    requires Inv(cfg, w) && w.b.state == HalfOpen
    ensures var after := AfterRequest(cfg, w.b, w.b.generation, success, now).state;
      var seen := w.results + [success];
      && (after == Closed <==> LastAre(seen, |seen|, true) && |seen| == AtLeastOne(cfg.successThreshold))
      && (after == Open <==> !success)
  {
    HalfOpenHistory(cfg, w);
    var seen := w.results + [success];
    StreakAppend(w.results, success);
    StreakMeaning(seen, |seen|, true);
    assert LastAre(seen, |seen|, true) <==> success;
  }

  lemma HalfOpenHistory(cfg: Config, w: World)
    requires Inv(cfg, w) && w.b.state == HalfOpen
    ensures w.b.counts.consecutiveSuccesses == Streak(w.results, true) == |w.results|
  {
    BoolCount(w.results);
  }

  lemma {:induction false} BoolCount(s: seq<bool>)
    ensures |s| == multiset(s)[true] + multiset(s)[false]
  {
    if s != [] {
      var init, last := s[..|s| - 1], s[|s| - 1];
      BoolCount(init);
      assert s == init + [last];
      assert multiset(s) == multiset(init) + multiset{last};
    }
  }

  ghost function TimeOf(e: Event): int {
    if e.ResetAt? then e.later else e.now
  }

  ghost predicate Quiet(run: seq<Event>, until: int) {
    forall i :: 0 <= i < |run| ==> !run[i].ResetAt? && TimeOf(run[i]) <= until
  }

  lemma OpenStays(cfg: Config, w: World, e: Event)
    requires w.b.state == Open && w.b.expiry.Some? && Enabled(w, e)
    requires !e.ResetAt? && TimeOf(e) <= w.b.expiry.value && w.b.generation !in w.inflight
    ensures var w' := Next(cfg, w, e); w'.b == w.b && w'.admitted == w.admitted && w'.inflight <= w.inflight
  {
  }

  lemma {:induction false} OpenUntilExpiry(cfg: Config, w: World, run: seq<Event>)
    requires w.b.state == Open && w.b.expiry.Some? && IsRun(cfg, w, run) && Quiet(run, w.b.expiry.value)
    requires w.b.generation !in w.inflight
    ensures Final(cfg, w, run).b == w.b && Final(cfg, w, run).admitted == w.admitted
    decreases |run|
  {
    if run != [] {
      assert Quiet(run[1..], w.b.expiry.value);
      OpenStays(cfg, w, run[0]);
      OpenUntilExpiry(cfg, Next(cfg, w, run[0]), run[1..]);
    }
  }

  /** Entering Open sets the deadline from the clock reading of the event that did it. */
  lemma TripSetsDeadline(cfg: Config, b: Breaker, e: Event)
    requires b.state != Open && Effect(cfg, b, e).state == Open
    ensures Effect(cfg, b, e).expiry == Some(TimeOf(e) + cfg.timeout)
  {
  }

  lemma FirstProbe(cfg: Config, w: World, now: int)
    requires w.b.state == Open && w.b.counts == CLEARED && w.b.expiry.Some? && now > w.b.expiry.value
    ensures Next(cfg, w, Request(now)).admitted != w.admitted <==> cfg.maxRequests > 0
    ensures Next(cfg, w, Request(now)).b.state == HalfOpen
  {
  }

  /** Once tripped, and short of a reset, the breaker admits nothing until the clock is
      strictly past trip time plus timeout; the first request after that is admitted
      exactly when `maxRequests` is positive. */
  lemma CoolsDown(cfg: Config, w: World, trip: Event, run: seq<Event>, now: int)
    requires Inv(cfg, w) && w.b.state != Open && Enabled(w, trip)
    requires Next(cfg, w, trip).b.state == Open
    requires IsRun(cfg, Next(cfg, w, trip), run) && Quiet(run, TimeOf(trip) + cfg.timeout)
    ensures var cooling := Final(cfg, Next(cfg, w, trip), run);
      && cooling.b == Next(cfg, w, trip).b && cooling.admitted == Next(cfg, w, trip).admitted
      && (now > TimeOf(trip) + cfg.timeout ==>
            (Next(cfg, cooling, Request(now)).admitted != cooling.admitted <==> cfg.maxRequests > 0))
  {
    TripSetsDeadline(cfg, w.b, trip);
    NextHasEffect(cfg, w, trip);
    NextKeepsInv(cfg, w, trip);
    var tripped := Next(cfg, w, trip);
    OpenUntilExpiry(cfg, tripped, run);
    if now > TimeOf(trip) + cfg.timeout {
      FirstProbe(cfg, Final(cfg, tripped, run), now);
    }
  }

  // ------------------------------------------------------- resets and closed windows

  /** A clean closed generation, later than all before it: nothing is counted or expected
      in it yet. */
  ghost predicate CleanClosed(w: World, before: World) {
    && w.b.state == Closed && w.b.counts == Counts(0, 0, 0, 0, 0) && w.results == []
    && w.b.generation > before.b.generation
    && w.inflight == before.inflight && w.admitted == before.admitted
    && forall g :: g in w.inflight ==> g < w.b.generation
  }

  /** The time up to which a closed generation's window lasts, if it ends at all. */
  ghost predicate WindowEnds(cfg: Config, b: Breaker, start: int) {
    if cfg.interval == 0 then b.expiry.None? else b.expiry == Some(start + cfg.interval)
  }

  /** Every result still expected has the effect of the clock alone. */
  ghost predicate AllStale(cfg: Config, w: World) {
    forall token, success, at :: token in w.inflight ==> AfterRequest(cfg, w.b, token, success, at) == Advance(cfg, w.b, at)
  }

  lemma CleanIsStale(cfg: Config, w: World, before: World)
    requires CleanClosed(w, before)
    ensures AllStale(cfg, w)
  {
    forall token, success, at | token in w.inflight ensures AfterRequest(cfg, w.b, token, success, at) == Advance(cfg, w.b, at) {
      assert token < w.b.generation <= Advance(cfg, w.b, at).generation;
    }
  }

  lemma ClosedAdmits(cfg: Config, w: World, t: int)
    requires w.b.state == Closed
    ensures Next(cfg, w, Request(t)).admitted == w.admitted + [Next(cfg, w, Observe(t)).b.generation]
  {
    assert Advance(cfg, w.b, t).state == Closed;
  }

  lemma ResetIsClean(cfg: Config, w: World, now: int, later: int)
    requires Inv(cfg, w)
    ensures var reset := Next(cfg, w, ResetAt(now, later));
      CleanClosed(reset, w) && WindowEnds(cfg, reset.b, if w.b.state == Closed then now else later)
  {
    TokensAreOld(cfg, w, Next(cfg, w, ResetAt(now, later)));
  }

  /** In every reachable world a reset closes the breaker, be it open or stuck: everything
      counted is forgotten, every request still in flight is stale, and the next request
      is admitted at any time.  The window runs from the reading that made the closed
      generation. */
  lemma ResetExactly(cfg: Config, run: seq<Event>, now: int, later: int, t: int)
    requires IsRun(cfg, START, run)
    ensures var w := Final(cfg, START, run);
      var reset := Next(cfg, w, ResetAt(now, later));
      && CleanClosed(reset, w) && AllStale(cfg, reset)
      && WindowEnds(cfg, reset.b, if w.b.state == Closed then now else later)
      && Next(cfg, reset, Request(t)).admitted == w.admitted + [Next(cfg, reset, Observe(t)).b.generation]
  {
    RunKeepsInv(cfg, START, run);
    var w := Final(cfg, START, run);
    var reset := Next(cfg, w, ResetAt(now, later));
    ResetIsClean(cfg, w, now, later);
    CleanIsStale(cfg, reset, w);
    ClosedAdmits(cfg, reset, t);
  }

  lemma TokensAreOld(cfg: Config, w: World, w': World)
    requires Inv(cfg, w) && w'.inflight == w.inflight && w'.b.generation > w.b.generation
    ensures forall g :: g in w'.inflight ==> g < w'.b.generation
  {
    forall g | g in w'.inflight ensures g < w'.b.generation {
      assert w.inflight[g] > 0;
    }
  }

  /** A half-open breaker that closes starts such a window too, from the result that
      closes it. */
  lemma ClosingStartsWindow(cfg: Config, w: World, now: int)
    requires Inv(cfg, w) && w.b.state == HalfOpen && w.b.generation in w.inflight
    requires Next(cfg, w, Result(w.b.generation, true, now)).b.state == Closed
    ensures WindowEnds(cfg, Next(cfg, w, Result(w.b.generation, true, now)).b, now)
  {
  }

  /** Up to its end, and at it, a closed window keeps what it counted; strictly after it
      the first event begins a clean one that lasts as long. */
  lemma WindowExpires(cfg: Config, w: World, start: int, now: int)
    requires Inv(cfg, w) && w.b.state == Closed && WindowEnds(cfg, w.b, start)
    ensures var seen := Next(cfg, w, Observe(now));
      if cfg.interval != 0 && now > start + cfg.interval
      then CleanClosed(seen, w) && WindowEnds(cfg, seen.b, now)
      else seen.b == w.b && seen.results == w.results
  {
    NextKeepsInv(cfg, w, Observe(now));
    var seen := Next(cfg, w, Observe(now));
    if cfg.interval != 0 && now > start + cfg.interval {
      TokensAreOld(cfg, w, seen);
    }
  }

  // --------------------------------------------------------- half-open liveness

  /** Half-open, all admitted requests answered, and the next request still refused. */
  ghost predicate Stuck(cfg: Config, w: World) {
    && w.b.state == HalfOpen && w.inflight[w.b.generation] == 0
    && AdmissionOf(cfg, w.b) == RejectedTooMany
  }

  lemma ConcatRun(cfg: Config, w: World, run: seq<Event>, e: Event)
    requires IsRun(cfg, w, run) && Enabled(Final(cfg, w, run), e)
    ensures IsRun(cfg, w, run + [e])
    ensures Final(cfg, w, run + [e]) == Next(cfg, Final(cfg, w, run), e)
    decreases |run|
  {
    if run == [] {
      assert run + [e] == [e];
    } else {
      assert (run + [e])[0] == run[0] && (run + [e])[1..] == run[1..] + [e];
      ConcatRun(cfg, Next(cfg, w, run[0]), run[1..], e);
    }
  }

  /** The clock never runs backwards and has not passed `t`. */
  ghost predicate OrderedUpTo(run: seq<Event>, t: int) {
    && (forall i :: 0 <= i < |run| ==> run[i].now <= TimeOf(run[i]) <= t)
    && forall i, j :: 0 <= i < j < |run| ==> TimeOf(run[i]) <= run[j].now
  }

  ghost predicate ClockOrdered(run: seq<Event>) {
    exists t :: OrderedUpTo(run, t)
  }

  lemma OrderedOneMore(run: seq<Event>, t: int, e: Event)
    requires OrderedUpTo(run, t) && t <= e.now <= TimeOf(e)
    ensures OrderedUpTo(run + [e], TimeOf(e))
  {
  }

  /** Half-open after `n` answered probes. */
  ghost predicate Probed(w: World, n: nat) {
    w.b == Breaker(HalfOpen, Counts(n, n, 0, n, 0), None, 2) && w.inflight == multiset{}
  }

  /** When a breaker that was tripped at time zero has cooled down. */
  function Cooled(cfg: Config): nat {
    if cfg.timeout < 0 then 0 else cfg.timeout + 1
  }

  lemma FirstProbed(cfg: Config) returns (run: seq<Event>)
    ensures IsRun(cfg, START, run) && Probed(Final(cfg, START, run), 0) && OrderedUpTo(run, Cooled(cfg))
  {
    var trip, wait := TripAt(0), Observe(Cooled(cfg));
    ConcatRun(cfg, START, [], trip);
    OrderedOneMore([], 0, trip);
    run := [] + [trip];
    ConcatRun(cfg, START, run, wait);
    OrderedOneMore(run, 0, wait);
    run := run + [wait];
  }

  lemma OneMoreProbe(cfg: Config, w: World, n: nat, now: int)
    requires Probed(w, n) && n < cfg.maxRequests && n + 1 < AtLeastOne(cfg.successThreshold)
    ensures var asked := Next(cfg, w, Request(now));
      && Enabled(asked, Result(2, true, now))
      && Probed(Next(cfg, asked, Result(2, true, now)), n + 1)
  {
    var asked := Next(cfg, w, Request(now));
    assert asked.inflight == multiset{2};
    assert asked.inflight - multiset{2} == multiset{};
  }

  /** Trip, wait, and answer `n` probes with success, one at a time. */
  lemma {:induction false} ProbeRun(cfg: Config, n: nat) returns (run: seq<Event>)
    requires n <= cfg.maxRequests && n < AtLeastOne(cfg.successThreshold)
    ensures IsRun(cfg, START, run) && Probed(Final(cfg, START, run), n) && OrderedUpTo(run, Cooled(cfg))
  {
    if n == 0 {
      run := FirstProbed(cfg);
    } else {
      var now := Cooled(cfg);
      run := ProbeRun(cfg, n - 1);
      OneMoreProbe(cfg, Final(cfg, START, run), n - 1, now);
      ConcatRun(cfg, START, run, Request(now));
      OrderedOneMore(run, now, Request(now));
      run := run + [Request(now)];
      ConcatRun(cfg, START, run, Result(2, true, now));
      OrderedOneMore(run, now, Result(2, true, now));
      run := run + [Result(2, true, now)];
    }
  }

  ghost predicate NeverStuck(cfg: Config) {
    forall run :: IsRun(cfg, START, run) && ClockOrdered(run) ==> !Stuck(cfg, Final(cfg, START, run))
  }

  /** Exactly when no run, by a clock that never runs backwards, leaves the breaker stuck: a
      half-open generation may admit as many probes as it needs successes. */
  lemma NeverStuckIff(cfg: Config)
    ensures NeverStuck(cfg) <==> cfg.maxRequests >= AtLeastOne(cfg.successThreshold)
  {
    if cfg.maxRequests < AtLeastOne(cfg.successThreshold) {
      var run := ProbeRun(cfg, cfg.maxRequests);
      assert IsRun(cfg, START, run) && ClockOrdered(run) && Stuck(cfg, Final(cfg, START, run));
    } else {
      forall run | IsRun(cfg, START, run) ensures !Stuck(cfg, Final(cfg, START, run)) {
        RunKeepsInv(cfg, START, run);
      }
    }
  }

  /** A stuck breaker stays stuck and admits nothing until it is reset or tripped. */
  lemma {:induction false} StuckForever(cfg: Config, w: World, run: seq<Event>)
    requires Stuck(cfg, w) && IsRun(cfg, w, run)
    requires forall i :: 0 <= i < |run| ==> !run[i].ResetAt? && !run[i].TripAt?
    ensures Stuck(cfg, Final(cfg, w, run)) && Final(cfg, w, run).admitted == w.admitted
    decreases |run|
  {
    if run != [] {
      var w1 := Next(cfg, w, run[0]);
      assert w1.b == w.b && w1.admitted == w.admitted && w1.inflight <= w.inflight;
      StuckForever(cfg, w1, run[1..]);
    }
  }
}
