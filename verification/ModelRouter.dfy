/** `ModelRouter.route` as the code it is, over the limiter and the breaker objects. Run on its own, it is
    a run of the transition system. */
module ModelRouters {
  import opened Scanner
  import opened RateLimiter
  import opened Breaker
  import opened Router

  datatype Provider = Primary | Secondary

  /** How an attempt ends, and the monotonic clock when it does. */
  datatype Answer = Answer(ending: Ending, mono: real)

  /** The route has made the events so far and will make the next one, which leaves the breaker as `b` and
      the route in `phase`: it is between two awaits. */
  ghost predicate Due(cfg: Settings, w: World, events: seq<Event>, r: nat, next: Event, now: real, wall: real,
                      b: BreakerState, phase: Phase)
  {
    && Possible(cfg, w, events)
    && var w1 := After(cfg, w, events);
       && w1.mono == now && w1.wall == wall && w1.routes.Keys == w.routes.Keys + {r}
       && (next.Resume? || next.Finish?) && Enabled(cfg, w1, next)
       && Next(cfg, w1, next) == w1.(breaker := b, routes := w1.routes[r := phase])
  }

  function TableAfter(cfg: Settings, w: World, events: seq<Event>): seq<Row>
    requires Possible(cfg, w, events)
  {
    Table(cfg, After(cfg, w, events))
  }

  lemma RouteBegins(cfg: Settings, w: World, begin: Event)
    requires begin.Begin? && Enabled(cfg, w, begin)
    ensures var op := Reserve(begin.key, begin.estimate, w.wall, begin.id);
            var (rows, reply) := Apply(cfg.limits, Table(cfg, w), op, true);
            && Possible(cfg, w, [begin]) && TableAfter(cfg, w, [begin]) == rows
            && var w' := After(cfg, w, [begin]);
               && w'.breaker == w.breaker && w'.mono == w.mono && w'.wall == w.wall
               && w'.routes == w.routes[begin.route :=
                    if reply.Reserved? then Admitted(begin.id, begin.started)
                    else Ended(None, if reply.Exceeded? then RateLimited else BadEstimate)]
  {
    hide Apply, Run;
    OneMore(cfg, w, [], begin);
    assert [] + [begin] == [begin];
    OneMoreCall(cfg, w, Reserve(begin.key, begin.estimate, w.wall, begin.id));
  }

  lemma RouteResumes(cfg: Settings, w: World, before: seq<Event>, r: nat, id: nat, started: real, resumed: real)
    returns (events: seq<Event>)
    requires Possible(cfg, w, before)
    requires var w1 := After(cfg, w, before);
             && w1.routes.Keys == w.routes.Keys + {r} && w1.routes[r] == Admitted(id, started) && w1.mono <= resumed
    ensures var w1 := After(cfg, w, before);
            var (b, phase) := Resumed(cfg, w1.breaker, resumed, id, started);
            && Due(cfg, w, events, r, Resume(r), resumed, w1.wall, b, phase) && Possible(cfg, w, events)
            && TableAfter(cfg, w, events) == TableAfter(cfg, w, before)
  {
    hide Resumed, Run, Possible, After;
    OneMore(cfg, w, before, Tick(resumed, After(cfg, w, before).wall));
    events := before + [Tick(resumed, After(cfg, w, before).wall)];
  }

  lemma AttemptEnds(cfg: Settings, w: World, before: seq<Event>, r: nat, next: Event, now: real, wall: real,
                    b: BreakerState, phase: Phase, answer: Answer) returns (events: seq<Event>)
    requires Due(cfg, w, before, r, next, now, wall, b, phase) && phase.Calling?
    requires now <= answer.mono && (answer.ending.Completed? ==> answer.ending.tokens >= 0)
    ensures var (b', phase') := Finished(cfg, b, answer.mono, phase, answer.ending);
            && Due(cfg, w, events, r, Finish(r, answer.ending), answer.mono, wall, b', phase')
            && Possible(cfg, w, events)
            && TableAfter(cfg, w, events) == TableAfter(cfg, w, before)
  {
    hide Finished, Run, Possible, After, Resumed;
    OneMore(cfg, w, before, next);
    events := before + [next];
    OneMore(cfg, w, events, Tick(answer.mono, wall));
    events := events + [Tick(answer.mono, wall)];
  }

  lemma RouteEnds(cfg: Settings, w: World, before: seq<Event>, r: nat, next: Event, now: real, wall: real,
                  b: BreakerState, phase: Phase) returns (events: seq<Event>)
    requires Due(cfg, w, before, r, next, now, wall, b, phase) && (phase.Committing? || phase.Releasing?)
    ensures Possible(cfg, w, events)
    ensures var w' := After(cfg, w, events);
            var op := if phase.Committing? then Commit(phase.id, phase.tokens) else Release(phase.id);
            && w'.breaker == b && w'.routes.Keys == w.routes.Keys + {r}
            && Table(cfg, w') == Apply(cfg.limits, TableAfter(cfg, w, before), op, true).0
            && w'.routes[r] ==
               Ended(Some(phase.id), if phase.Committing? then Routed(phase.tokens, phase.attempts) else phase.result)
  {
    hide Finished, Run, Possible, After, Resumed, Apply;
    OneMore(cfg, w, before, next);
    events := before + [next];
    var w1 := After(cfg, w, events);
    var last := if phase.Committing? then CommitRow(r) else ReleaseRow(r);
    OneMore(cfg, w, events, last);
    OneMoreCall(cfg, w1, if phase.Committing? then Commit(phase.id, phase.tokens) else Release(phase.id));
    events := events + [last];
  }

  /** What the route does next, when `rest` are the candidates left. */
  function Upcoming(cfg: Settings, b: BreakerState, now: real, id: nat, started: real, attempts: seq<Outcome>,
                    rest: seq<Provider>, probe: bool): (BreakerState, Phase)
  {
    if rest == [] then (b, Releasing(id, Failure(attempts)))
    else Dial(cfg, b, now, id, started, attempts, rest[0] == Primary, probe)
  }

  lemma UpcomingDial(cfg: Settings, b: BreakerState, now: real, id: nat, started: real, attempts: seq<Outcome>,
                     rest: seq<Provider>, probe: bool)
    requires rest != []
    ensures var (b', phase) := Upcoming(cfg, b, now, id, started, attempts, rest, probe);
            if RemainingBudget(cfg, started, now) <= 0.0 then
              && b' == (if rest[0] == Primary then Abandoned(b) else b)
              && phase == Releasing(id, Failure(attempts + [DeadlineExhausted]))
            else
              && b' == b && phase.Calling? && phase.id == id && phase.started == started
              && phase.attempts == attempts && phase.primary == (rest[0] == Primary)
  {
    hide Failure, RemainingBudget;
  }

  lemma UpcomingFailure(cfg: Settings, b: BreakerState, now: real, id: nat, started: real, attempts: seq<Outcome>,
                        probe: bool)
    ensures Upcoming(cfg, b, now, id, started, attempts, [], probe) == (b, Releasing(id, Failure(attempts)))
  {
    hide Failure, Dial;
  }

  lemma UpcomingIsResumed(cfg: Settings, b: BreakerState, now: real, id: nat, started: real)
    ensures var (asked, allowed) := Allows(cfg.policy, b, now);
            Resumed(cfg, b, now, id, started) ==
              if allowed then
                Upcoming(cfg, asked, now, id, started, [], [Primary, Secondary],
                         HealthAt(cfg.policy, b, now) == HalfOpen)
              else Upcoming(cfg, asked, now, id, started, [CircuitOpen], [Secondary], false)
  {
    hide Dial, Allows;
  }

  /** What the end of an attempt leads to. */
  lemma AttemptLeadsTo(cfg: Settings, b: BreakerState, now: real, c: Phase, ending: Ending, rest: seq<Provider>)
    requires c.Calling? && (rest == [Primary, Secondary] || rest == [Secondary]) && c.primary == (rest[0] == Primary)
    ensures var told := if c.primary then Learned(cfg, b, now, ending) else b;
            Finished(cfg, b, now, c, ending) ==
              if ending.Cancel? then (told, Releasing(c.id, Cancelled))
              else
                var attempts := c.attempts + [OutcomeOf(ending)];
                if ending.Completed? then (told, Committing(c.id, ending.tokens, attempts))
                else if ending.Rejected? then (told, Releasing(c.id, UpstreamError(attempts)))
                else Upcoming(cfg, told, now, c.id, c.started, attempts, rest[1..], false)
  {
    hide Learned, Failure, Dial;
    assert c.primary ==> rest[1..] == [Secondary];
    assert !c.primary ==> rest[1..] == [];
  }

  class ModelRouter {
    const cfg: Settings
    const limiter: SlidingWindowRateLimiter
    const breaker: CircuitBreaker

    constructor (cfg: Settings)
      ensures Fits() && this.cfg == cfg && fresh(limiter) && fresh(breaker)
      ensures limiter.rows == [] && breaker.State() == NEW
    {
      this.cfg := cfg;
      limiter := new SlidingWindowRateLimiter(cfg.limits.limit, cfg.limits.window);
      breaker := new CircuitBreaker(cfg.policy);
    }

    predicate Fits() {
      limiter.cfg == cfg.limits && breaker.policy == cfg.policy
    }

    /** The objects hold the shared state of the world. */
    ghost predicate Holds(w: World)
      reads limiter, breaker
    {
      limiter.rows == Table(cfg, w) && breaker.State() == w.breaker
    }

    /** A primary attempt that ended by cancellation says nothing about health; any other ending does. */
    method TellBreaker(provider: Provider, ending: Ending, now: real)
      requires Fits()
      modifies breaker
      ensures breaker.State() ==
                if provider == Primary then Learned(cfg, old(breaker.State()), now, ending) else old(breaker.State())
    {
      if provider == Primary {
        if ending.Cancel? {
          breaker.AbandonProbe();
        } else if OutcomeOf(ending) == Success || OutcomeOf(ending) == ClientError {
          breaker.RecordSuccess();
        } else {
          breaker.RecordFailure(now);
        }
      }
    }

    method Route(r: nat, key: string, estimate: int, id: nat, started: real, wall: real, resumed: real,
                 answers: seq<Answer>, ghost w: World)
      returns (result: Result, ghost events: seq<Event>)
      requires Fits() && Holds(w)
      requires w.mono == started && w.wall == wall && r !in w.routes && !Drawn(w.routes, id)
      requires |answers| == 2 && started <= resumed <= answers[0].mono <= answers[1].mono
      requires forall a <- answers :: a.ending.Completed? ==> a.ending.tokens >= 0
      modifies limiter, breaker
      ensures Possible(cfg, w, events)
      ensures var w' := After(cfg, w, events);
              && Holds(w') && w'.routes.Keys == w.routes.Keys + {r}
              && w'.routes[r].Ended? && w'.routes[r].result == result
    {
      hide Possible, After, Due, Next, Run, Apply, Learned, Failure, Dial, Finished, RemainingBudget, Upcoming;
      var attempts: seq<Outcome> := [];
      events := [Begin(r, started, key, estimate, id)];
      RouteBegins(cfg, w, events[0]);
      var reply := limiter.ReserveTokens(key, estimate, wall, id);
      if !reply.Reserved? {
        result := if reply.Exceeded? then RateLimited else BadEstimate;
        return;
      }
      events := RouteResumes(cfg, w, events, r, id, started, resumed);
      var now := resumed;
      ghost var next, probe := Resume(r), HealthAt(cfg.policy, breaker.State(), now) == HalfOpen;
      var candidates: seq<Provider> := [];
      var allowed := breaker.AllowsRequest(now);
      if allowed {
        candidates := candidates + [Primary];
      } else {
        attempts, probe := attempts + [CircuitOpen], false;
      }
      candidates := candidates + [Secondary];
      assert attempts == (if allowed then [] else [CircuitOpen]) && candidates[0..] == candidates;
      assert candidates == if allowed then [Primary, Secondary] else [Secondary];
      UpcomingIsResumed(cfg, w.breaker, now, id, started);
      var raised: Option<Result>, i := None, 0;
      while i < |candidates|
        invariant 0 <= i <= |candidates| <= 2 && raised == None
        invariant i < |candidates| ==> now <= answers[i].mono
        invariant Possible(cfg, w, events) && limiter.rows == TableAfter(cfg, w, events)
        invariant var (b, phase) :=
                    Upcoming(cfg, breaker.State(), now, id, started, attempts, candidates[i..], probe);
                  Due(cfg, w, events, r, next, now, wall, b, phase)
      {
        var provider := candidates[i];
        UpcomingDial(cfg, breaker.State(), now, id, started, attempts, candidates[i..], probe);
        var remaining := RemainingBudget(cfg, started, now);
        if remaining <= 0.0 {
          attempts := attempts + [DeadlineExhausted];
          if provider == Primary {
            breaker.AbandonProbe();
          }
          break;
        }
        var answer := answers[i];
        ghost var (b, phase) := Upcoming(cfg, breaker.State(), now, id, started, attempts, candidates[i..], probe);
        AttemptLeadsTo(cfg, b, answer.mono, phase, answer.ending, candidates[i..]);
        assert candidates[i..][1..] == candidates[i + 1..];
        events := AttemptEnds(cfg, w, events, r, next, now, wall, b, phase, answer);
        next, now, probe := Finish(r, answer.ending), answer.mono, false;
        TellBreaker(provider, answer.ending, now);
        if answer.ending.Cancel? {
          raised := Some(Cancelled);
          break;
        }
        attempts := attempts + [OutcomeOf(answer.ending)];
        if answer.ending.Completed? {
          limiter.CommitTokens(id, answer.ending.tokens);
          events := RouteEnds(cfg, w, events, r, next, now, wall, breaker.State(),
                              Committing(id, answer.ending.tokens, attempts));
          return Routed(answer.ending.tokens, attempts), events;
        }
        if answer.ending.Rejected? {
          raised := Some(UpstreamError(attempts));
          break;
        }
        i := i + 1;
      }
      if i == |candidates| {
        assert candidates[i..] == [];
        UpcomingFailure(cfg, breaker.State(), now, id, started, attempts, probe);
      }
      result := if raised.Some? then raised.value else Failure(attempts);
      limiter.ReleaseTokens(id);
      events := RouteEnds(cfg, w, events, r, next, now, wall, breaker.State(), Releasing(id, result));
    }
  }
}
