/** Concurrent `route` calls as a transition system. A route runs without interruption from one await
    to the next, so a step is what happens at, or between, awaits: a limiter call takes effect, a route
    goes on after its reservation, an attempt ends, time passes. */
module Router {
  import opened Scanner
  import opened RateLimiter
  import opened RateLimiterTheorems
  import opened Breaker

  datatype Settings = Settings(
    limits: Limits, policy: Policy, attemptTimeout: real, totalDeadline: Option<real>)

  datatype Outcome = Success | ClientError | TimedOut | RetryableError | CircuitOpen | DeadlineExhausted

  datatype Result =
    | RateLimited
    | BadEstimate
    | Routed(tokens: int, attempts: seq<Outcome>)
    | UpstreamError(attempts: seq<Outcome>)
    | UpstreamTimeout(attempts: seq<Outcome>)
    | AllProvidersFailed(attempts: seq<Outcome>)
    | Cancelled

  /** Where a route is. `probe` says that its attempt took the half-open slot of the breaker. */
  datatype Phase =
    | Admitted(id: nat, started: real)
    | Calling(id: nat, started: real, attempts: seq<Outcome>, primary: bool, since: real, timeout: real, probe: bool)
    | Committing(id: nat, tokens: int, attempts: seq<Outcome>)
    | Releasing(id: nat, result: Result)
    | Ended(reservation: Option<nat>, result: Result)

  /** The shared state: the monotonic and the wall clock, the breaker, all limiter calls so far, and the
      routes. The limiter's table is what the calls make of it. */
  datatype World = World(
    mono: real, wall: real, breaker: BreakerState, calls: seq<Op>, routes: map<nat, Phase>)

  datatype Ending = Completed(tokens: int) | Rejected | Late | Faulty | Cancel

  datatype Event =
    | Tick(mono: real, wall: real)
    | Begin(route: nat, started: real, key: string, estimate: int, id: nat)
    | Resume(route: nat)
    | Finish(route: nat, ending: Ending)
    | CommitRow(route: nat)
    | ReleaseRow(route: nat)

  function Table(cfg: Settings, w: World): seq<Row> {
    Run(cfg.limits, w.calls, true).0
  }

  function Ledger(cfg: Settings, w: World): seq<Entry> {
    History(cfg.limits, w.calls)
  }

  function ReservationOf(phase: Phase): Option<nat> {
    if phase.Ended? then phase.reservation else Some(phase.id)
  }

  predicate Drawn(routes: map<nat, Phase>, id: nat) {
    exists r :: r in routes && ReservationOf(routes[r]) == Some(id)
  }

  /** `_remaining_budget` */
  function RemainingBudget(cfg: Settings, started: real, now: real): real {
    if cfg.totalDeadline == None then cfg.attemptTimeout else cfg.totalDeadline.value - (now - started)
  }

  predicate AllTimedOut(attempts: seq<Outcome>) {
    attempts == [] || ((attempts[0].TimedOut? || attempts[0].DeadlineExhausted?) && AllTimedOut(attempts[1..]))
  }

  function Failure(attempts: seq<Outcome>): Result {
    if AllTimedOut(attempts) then UpstreamTimeout(attempts) else AllProvidersFailed(attempts)
  }

  /** The next candidate's turn in the loop of `route`: an attempt starts, or the deadline is exhausted. */
  function Dial(cfg: Settings, b: BreakerState, now: real, id: nat, started: real, attempts: seq<Outcome>,
                primary: bool, probe: bool): (BreakerState, Phase)
  {
    var remaining := RemainingBudget(cfg, started, now);
    if remaining <= 0.0 then
      (if primary then Abandoned(b) else b, Releasing(id, Failure(attempts + [DeadlineExhausted])))
    else
      var timeout := if cfg.attemptTimeout < remaining then cfg.attemptTimeout else remaining;
      (b, Calling(id, started, attempts, primary, now, timeout, probe))
  }

  /** From the reservation to the first attempt. */
  function Resumed(cfg: Settings, b: BreakerState, now: real, id: nat, started: real): (BreakerState, Phase) {
    var (asked, allowed) := Allows(cfg.policy, b, now);
    if allowed then Dial(cfg, asked, now, id, started, [], true, HealthAt(cfg.policy, b, now) == HalfOpen)
    else Dial(cfg, asked, now, id, started, [CircuitOpen], false, false)
  }

  function OutcomeOf(ending: Ending): Outcome
    requires !ending.Cancel?
  {
    match ending
    case Completed(_) => Success
    case Rejected => ClientError
    case Late => TimedOut
    case Faulty => RetryableError
  }

  /** What the end of a primary attempt tells the breaker. */
  function Learned(cfg: Settings, b: BreakerState, now: real, ending: Ending): BreakerState {
    match ending
    case Cancel => Abandoned(b)
    case Completed(_) => Succeeded(b)
    case Rejected => Succeeded(b)
    case Late => Failed(cfg.policy, b, now)
    case Faulty => Failed(cfg.policy, b, now)
  }

  /** From the end of an attempt to the next await. */
  function Finished(cfg: Settings, b: BreakerState, now: real, c: Phase, ending: Ending): (BreakerState, Phase)
    requires c.Calling?
  {
    var told := if c.primary then Learned(cfg, b, now, ending) else b;
    if ending.Cancel? then (told, Releasing(c.id, Cancelled))
    else
      var attempts := c.attempts + [OutcomeOf(ending)];
      if ending.Completed? then (told, Committing(c.id, ending.tokens, attempts))
      else if ending.Rejected? then (told, Releasing(c.id, UpstreamError(attempts)))
      else if c.primary then Dial(cfg, told, now, c.id, c.started, attempts, false, false)
      else (told, Releasing(c.id, Failure(attempts)))
  }

  /** The limiter calls that an event makes. */
  function CallsOf(w: World, e: Event): seq<Op>
    requires e.CommitRow? ==> e.route in w.routes && w.routes[e.route].Committing?
    requires e.ReleaseRow? ==> e.route in w.routes && w.routes[e.route].Releasing?
  {
    match e
    case Begin(_, _, key, estimate, id) => [Reserve(key, estimate, w.wall, id)]
    case CommitRow(r) => [Commit(w.routes[r].id, w.routes[r].tokens)]
    case ReleaseRow(r) => [Release(w.routes[r].id)]
    case _ => []
  }

  /** Clocks do not run backwards, identifiers are fresh, providers report no negative totals. */
  predicate Enabled(cfg: Settings, w: World, e: Event) {
    match e
    case Tick(mono, wall) => w.mono <= mono && w.wall <= wall
    case Begin(r, started, _, _, id) => r !in w.routes && started <= w.mono && !Drawn(w.routes, id)
    case Resume(r) => r in w.routes && w.routes[r].Admitted?
    case Finish(r, ending) => r in w.routes && w.routes[r].Calling? && (ending.Completed? ==> ending.tokens >= 0)
    case CommitRow(r) => r in w.routes && w.routes[r].Committing?
    case ReleaseRow(r) => r in w.routes && w.routes[r].Releasing?
  }

  function Next(cfg: Settings, w: World, e: Event): World
    requires Enabled(cfg, w, e)
  {
    match e
    case Tick(mono, wall) => w.(mono := mono, wall := wall)
    case Begin(r, started, key, estimate, id) =>
      var reply := Apply(cfg.limits, Table(cfg, w), Reserve(key, estimate, w.wall, id), true).1;
      var phase := if reply.Reserved? then Admitted(id, started)
                   else Ended(None, if reply.Exceeded? then RateLimited else BadEstimate);
      w.(calls := w.calls + CallsOf(w, e), routes := w.routes[r := phase])
    case Resume(r) =>
      var (b, phase) := Resumed(cfg, w.breaker, w.mono, w.routes[r].id, w.routes[r].started);
      w.(breaker := b, routes := w.routes[r := phase])
    case Finish(r, ending) =>
      var (b, phase) := Finished(cfg, w.breaker, w.mono, w.routes[r], ending);
      w.(breaker := b, routes := w.routes[r := phase])
    case CommitRow(r) =>
      var c := w.routes[r];
      w.(calls := w.calls + CallsOf(w, e), routes := w.routes[r := Ended(Some(c.id), Routed(c.tokens, c.attempts))])
    case ReleaseRow(r) =>
      var c := w.routes[r];
      w.(calls := w.calls + CallsOf(w, e), routes := w.routes[r := Ended(Some(c.id), c.result)])
  }

  function Initial(mono: real, wall: real): World {
    World(mono, wall, NEW, [], map[])
  }

  /** The event can happen after the others have, and so can they. */
  predicate Possible(cfg: Settings, start: World, events: seq<Event>)
    decreases |events|, 0
  {
    events == [] ||
    (&& Possible(cfg, start, events[..|events| - 1])
     && Enabled(cfg, After(cfg, start, events[..|events| - 1]), events[|events| - 1]))
  }

  function After(cfg: Settings, start: World, events: seq<Event>): World
    requires Possible(cfg, start, events)
    decreases |events|, 1
  {
    if events == [] then start
    else Next(cfg, After(cfg, start, events[..|events| - 1]), events[|events| - 1])
  }

  lemma OneMore(cfg: Settings, start: World, events: seq<Event>, e: Event)
    requires Possible(cfg, start, events) && Enabled(cfg, After(cfg, start, events), e)
    ensures Possible(cfg, start, events + [e])
    ensures After(cfg, start, events + [e]) == Next(cfg, After(cfg, start, events), e)
  {
    assert (events + [e])[..|events|] == events;
  }

  lemma OneMoreCall(cfg: Settings, w: World, op: Op)
    ensures Run(cfg.limits, w.calls + [op], true).0 == Apply(cfg.limits, Table(cfg, w), op, true).0
  {
    assert (w.calls + [op])[..|w.calls|] == w.calls;
  }
}
