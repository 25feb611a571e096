/** What a route tries, in what order, and for how long. */
module FailoverTheorems {
  import opened Scanner
  import opened Breaker
  import opened Router
  import opened BreakerTheorems

  /** Outcomes after which the next provider is asked: 429, 5xx, transport failures and timeouts, or the
      breaker's refusal. */
  predicate FailsOver(o: Outcome) {
    o.CircuitOpen? || o.TimedOut? || o.RetryableError?
  }

  /** At most two attempts, the second only if the first failed over; the last one is `o`. */
  predicate EndsWith(attempts: seq<Outcome>, o: Outcome) {
    && 1 <= |attempts| <= 2 && attempts[|attempts| - 1] == o
    && (|attempts| == 2 ==> FailsOver(attempts[0]))
  }

  predicate OutOfTime(o: Outcome) {
    o.TimedOut? || o.DeadlineExhausted?
  }

  /** The list of attempts of a route that failed everywhere. */
  predicate FailedEverywhere(attempts: seq<Outcome>) {
    || (exists o <- [TimedOut, RetryableError] :: |attempts| == 2 && EndsWith(attempts, o))
    || EndsWith(attempts, DeadlineExhausted)
  }

  /** The answer to the client fits what was tried. */
  predicate Explained(result: Result) {
    match result
    case Routed(_, attempts) => EndsWith(attempts, Success)
    case UpstreamError(attempts) => EndsWith(attempts, ClientError)
    case UpstreamTimeout(attempts) => FailedEverywhere(attempts) && forall o <- attempts :: OutOfTime(o)
    case AllProvidersFailed(attempts) => FailedEverywhere(attempts) && exists o <- attempts :: !OutOfTime(o)
    case _ => true
  }

  function Shorter(a: real, b: real): real { if a < b then a else b }

  predicate Orderly(cfg: Settings, phase: Phase) {
    match phase
    case Admitted(_, _) => true
    case Calling(_, started, attempts, primary, since, timeout, _) =>
      && (if primary then attempts == [] else |attempts| == 1 && FailsOver(attempts[0]))
      && timeout ==
         (if cfg.totalDeadline == None then cfg.attemptTimeout
          else Shorter(cfg.attemptTimeout, started + cfg.totalDeadline.value - since))
      && (cfg.totalDeadline.Some? ==> since < started + cfg.totalDeadline.value)
    case Committing(_, _, attempts) => EndsWith(attempts, Success)
    case Releasing(_, result) => Explained(result)
    case Ended(_, result) => Explained(result)
  }

  predicate AllOrderly(cfg: Settings, w: World) {
    forall r | r in w.routes :: Orderly(cfg, w.routes[r])
  }

  lemma {:induction false} AllTimedOutMeans(attempts: seq<Outcome>)
    ensures AllTimedOut(attempts) <==> forall o <- attempts :: OutOfTime(o)
  {
    if attempts != [] {
      AllTimedOutMeans(attempts[1..]);
      assert forall o <- attempts :: o == attempts[0] || o in attempts[1..];
      assert attempts[0] in attempts && forall o <- attempts[1..] :: o in attempts;
    }
  }

  lemma DialOrderly(cfg: Settings, b: BreakerState, now: real, id: nat, started: real, attempts: seq<Outcome>,
                    primary: bool, probe: bool)
    requires if primary then attempts == [] else |attempts| == 1 && FailsOver(attempts[0])
    ensures Orderly(cfg, Dial(cfg, b, now, id, started, attempts, primary, probe).1)
  {
    AllTimedOutMeans(attempts + [DeadlineExhausted]);
  }

  lemma FinishOrderly(cfg: Settings, b: BreakerState, now: real, c: Phase, ending: Ending)
    requires c.Calling? && Orderly(cfg, c)
    ensures Orderly(cfg, Finished(cfg, b, now, c, ending).1)
  {
    if !ending.Cancel? {
      var attempts := c.attempts + [OutcomeOf(ending)];
      AllTimedOutMeans(attempts);
      if c.primary && (ending.Late? || ending.Faulty?) {
        DialOrderly(cfg, Learned(cfg, b, now, ending), now, c.id, c.started, attempts, false, false);
      } else if !c.primary {
        assert OutcomeOf(ending) in [TimedOut, RetryableError] || ending.Completed? || ending.Rejected?;
      }
    }
  }

  lemma OrderlyStep(cfg: Settings, w: World, e: Event)
    requires Enabled(cfg, w, e) && AllOrderly(cfg, w)
    ensures AllOrderly(cfg, Next(cfg, w, e))
  {
    match e
    case Resume(r) =>
      var (b, allowed) := Allows(cfg.policy, w.breaker, w.mono);
      DialOrderly(cfg, b, w.mono, w.routes[r].id, w.routes[r].started, [], true,
                  HealthAt(cfg.policy, w.breaker, w.mono) == HalfOpen);
      DialOrderly(cfg, b, w.mono, w.routes[r].id, w.routes[r].started, [CircuitOpen], false, false);
    case Finish(r, ending) => FinishOrderly(cfg, w.breaker, w.mono, w.routes[r], ending);
    case _ =>
  }

  lemma {:induction false} AlwaysOrderly(cfg: Settings, mono: real, wall: real, events: seq<Event>)
    requires Possible(cfg, Initial(mono, wall), events)
    ensures AllOrderly(cfg, After(cfg, Initial(mono, wall), events))
    decreases |events|
  {
    if events != [] {
      var before := events[..|events| - 1];
      AlwaysOrderly(cfg, mono, wall, before);
      OrderlyStep(cfg, After(cfg, Initial(mono, wall), before), events[|events| - 1]);
    }
  }

  /** In every interleaving, a route asks the second provider only after a failure that deserves it, never
      after a client error, asks nobody after an answer, and reports a timeout exactly when everything it
      tried ran out of time. */
  lemma ResultsAreExplained(cfg: Settings, mono: real, wall: real, events: seq<Event>, r: nat)
    requires Possible(cfg, Initial(mono, wall), events)
    ensures var w := After(cfg, Initial(mono, wall), events);
            r in w.routes && w.routes[r].Ended? ==> Explained(w.routes[r].result)
  {
    AlwaysOrderly(cfg, mono, wall, events);
  }

  /** Every attempt in flight, the fallback as well as the first, has the attempt timeout or all that was
      left of the overall deadline when it started, whichever is shorter, and it started before that ran
      out. */
  lemma AttemptGetsWhatIsLeft(cfg: Settings, mono: real, wall: real, events: seq<Event>, r: nat)
    requires Possible(cfg, Initial(mono, wall), events)
    ensures var w := After(cfg, Initial(mono, wall), events);
            r in w.routes && w.routes[r].Calling? ==>
              var c := w.routes[r];
              if cfg.totalDeadline == None then c.timeout == cfg.attemptTimeout
              else
                var left := c.started + cfg.totalDeadline.value - c.since;
                left > 0.0 && c.timeout == if cfg.attemptTimeout < left then cfg.attemptTimeout else left
  {
    AlwaysOrderly(cfg, mono, wall, events);
  }

  /** Attempts in flight are within their timeouts. */
  lemma {:induction false} AlwaysInTime(cfg: Settings, mono: real, wall: real, events: seq<Event>, r: nat)
    requires cfg.attemptTimeout >= 0.0
    requires Possible(cfg, Initial(mono, wall), events) && Punctual(cfg, Initial(mono, wall), events)
    ensures var w := After(cfg, Initial(mono, wall), events);
            r in w.routes && w.routes[r].Calling? ==> w.mono <= w.routes[r].since + w.routes[r].timeout
    decreases |events|
  {
    if events != [] {
      AlwaysInTime(cfg, mono, wall, events[..|events| - 1], r);
    }
  }

  /** As long as attempts end within their timeouts, no attempt of a route, whether the first or the
      fallback, is in flight beyond the overall deadline. */
  lemma DeadlineCoversFallback(cfg: Settings, mono: real, wall: real, events: seq<Event>, r: nat)
    requires cfg.attemptTimeout >= 0.0
    requires Possible(cfg, Initial(mono, wall), events) && Punctual(cfg, Initial(mono, wall), events)
    ensures var w := After(cfg, Initial(mono, wall), events);
            r in w.routes && w.routes[r].Calling? && cfg.totalDeadline.Some? ==>
              w.mono <= w.routes[r].started + cfg.totalDeadline.value
  {
    AlwaysOrderly(cfg, mono, wall, events);
    AlwaysInTime(cfg, mono, wall, events, r);
  }
}
