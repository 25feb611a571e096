/** What a route reports, against what happened to it. */
module RouteHistory {
  import opened Scanner
  import opened RateLimiter
  import opened Breaker
  import opened Router
  import opened BreakerTheorems
  import opened BreakerHealth
  import opened FailoverTheorems

  // What happened to a route, read off the events

  function BeginOf(events: seq<Event>, r: nat): Option<Event> {
    if events == [] then None
    else if events[|events| - 1].Begin? && events[|events| - 1].route == r then Some(events[|events| - 1])
    else BeginOf(events[..|events| - 1], r)
  }

  /** How its attempts ended, in order. */
  function EndingsOf(events: seq<Event>, r: nat): seq<Ending> {
    if events == [] then []
    else
      var last := events[|events| - 1];
      EndingsOf(events[..|events| - 1], r) + if last.Finish? && last.route == r then [last.ending] else []
  }

  /** No request may reach the primary: the circuit is open, or its one probe is under way. */
  predicate Refuses(cfg: Settings, w: World) {
    var health := HealthAt(cfg.policy, w.breaker, w.mono);
    health == Open || (health == HalfOpen && w.breaker.probeInFlight)
  }

  /** That was so when the route asked. */
  predicate Refused(cfg: Settings, start: World, events: seq<Event>, r: nat)
    requires Possible(cfg, start, events)
  {
    if events == [] then false
    else
      var before := events[..|events| - 1];
      || Refused(cfg, start, before, r)
      || (events[|events| - 1] == Resume(r) && Refuses(cfg, After(cfg, start, before)))
  }

  datatype Past = Past(begin: Option<Event>, refused: bool, endings: seq<Ending>)

  function PastOf(cfg: Settings, start: World, events: seq<Event>, r: nat): Past
    requires Possible(cfg, start, events)
  {
    Past(BeginOf(events, r), Refused(cfg, start, events, r), EndingsOf(events, r))
  }

  // What it reports

  predicate Records(o: Outcome, ending: Ending) {
    match ending
    case Completed(_) => o == Success
    case Rejected => o == ClientError
    case Late => o == TimedOut
    case Faulty => o == RetryableError
    case Cancel => false
  }

  /** The refusal of the breaker, if there was one, and then every ending. */
  predicate Recorded(attempts: seq<Outcome>, past: Past) {
    var skipped := if past.refused then 1 else 0;
    && |attempts| == skipped + |past.endings| && (past.refused ==> attempts[0] == CircuitOpen)
    && forall k | 0 <= k < |past.endings| :: Records(attempts[skipped + k], past.endings[k])
  }

  predicate LastIs(past: Past, ending: Ending) {
    past.endings != [] && past.endings[|past.endings| - 1] == ending
  }

  predicate NoAnswer(past: Past) {
    forall ending <- past.endings :: ending.Late? || ending.Faulty?
  }

  predicate DeadlinePassed(cfg: Settings, started: real, now: real) {
    if cfg.totalDeadline == None then cfg.attemptTimeout <= 0.0 else now >= started + cfg.totalDeadline.value
  }

  /** Either both providers were asked, or skipped, or the time was up before the next one. */
  predicate GaveUp(cfg: Settings, attempts: seq<Outcome>, past: Past, now: real)
    requires past.begin.Some? && past.begin.value.Begin?
  {
    && NoAnswer(past) && attempts != []
    && if attempts[|attempts| - 1] == DeadlineExhausted
       then Recorded(attempts[..|attempts| - 1], past) && DeadlinePassed(cfg, past.begin.value.started, now)
       else Recorded(attempts, past) && |attempts| == 2
  }

  predicate Truthful(cfg: Settings, result: Result, past: Past, now: real)
    requires past.begin.Some? && past.begin.value.Begin?
  {
    match result
    case RateLimited => past.endings == [] && past.begin.value.estimate >= 0
    case BadEstimate => past.endings == [] && past.begin.value.estimate < 0
    case Routed(tokens, attempts) => LastIs(past, Completed(tokens)) && Recorded(attempts, past)
    case UpstreamError(attempts) => LastIs(past, Rejected) && Recorded(attempts, past)
    case Cancelled => LastIs(past, Cancel)
    case UpstreamTimeout(attempts) =>
      GaveUp(cfg, attempts, past, now) && !past.refused && Faulty !in past.endings
    case AllProvidersFailed(attempts) =>
      GaveUp(cfg, attempts, past, now) && (past.refused || Faulty in past.endings)
  }

  /** The primary is in flight if and only if nothing was refused and nothing has ended yet. */
  predicate Consistent(cfg: Settings, phase: Phase, past: Past, now: real) {
    && past.begin.Some? && past.begin.value.Begin?
    && match phase
       case Admitted(_, started) => started == past.begin.value.started && !past.refused && past.endings == []
       case Calling(_, started, attempts, primary, _, _, _) =>
         && started == past.begin.value.started && Recorded(attempts, past) && NoAnswer(past)
         && |past.endings| <= 1 && (past.refused ==> past.endings == [])
         && (primary <==> !past.refused && past.endings == [])
       case Committing(_, tokens, attempts) => LastIs(past, Completed(tokens)) && Recorded(attempts, past)
       case Releasing(_, result) => Truthful(cfg, result, past, now)
       case Ended(_, result) => Truthful(cfg, result, past, now)
  }

  // Steps

  lemma PastGrows(cfg: Settings, start: World, before: seq<Event>, e: Event, r: nat)
    requires Possible(cfg, start, before) && Enabled(cfg, After(cfg, start, before), e)
    ensures Possible(cfg, start, before + [e])
    ensures After(cfg, start, before + [e]) == Next(cfg, After(cfg, start, before), e)
    ensures PastOf(cfg, start, before + [e], r) ==
            var past := PastOf(cfg, start, before, r);
            Past(if e.Begin? && e.route == r then Some(e) else past.begin,
                 past.refused || (e == Resume(r) && Refuses(cfg, After(cfg, start, before))),
                 past.endings + if e.Finish? && e.route == r then [e.ending] else [])
  {
    OneMore(cfg, start, before, e);
    assert (before + [e])[..|before|] == before;
    hide After, Possible, Next, Refuses;
  }

  lemma StaysTruthful(cfg: Settings, result: Result, past: Past, now: real, later: real)
    requires past.begin.Some? && past.begin.value.Begin? && Truthful(cfg, result, past, now) && now <= later
    ensures Truthful(cfg, result, past, later)
  {}

  lemma StaysConsistent(cfg: Settings, phase: Phase, past: Past, now: real, later: real)
    requires Consistent(cfg, phase, past, now) && now <= later
    ensures Consistent(cfg, phase, past, later)
  {
    hide Truthful;
    match phase
    case Releasing(_, result) => StaysTruthful(cfg, result, past, now, later);
    case Ended(_, result) => StaysTruthful(cfg, result, past, now, later);
    case _ =>
  }

  /** With no answer, everything recorded was a timeout if and only if nothing was refused or faulty. */
  lemma RecordedTimeouts(attempts: seq<Outcome>, past: Past)
    requires Recorded(attempts, past) && NoAnswer(past)
    ensures (forall o <- attempts :: OutOfTime(o)) <==> !past.refused && Faulty !in past.endings
  {
    var skipped := if past.refused then 1 else 0;
    if Faulty in past.endings {
      var k :| 0 <= k < |past.endings| && past.endings[k] == Faulty;
      assert Records(attempts[skipped + k], past.endings[k]) && attempts[skipped + k] in attempts;
    } else if past.refused {
      assert attempts[0] in attempts;
    } else {
      forall o <- attempts ensures o.TimedOut? {
        var k :| 0 <= k < |attempts| && attempts[k] == o;
        assert Records(attempts[skipped + k], past.endings[k]) && past.endings[k] in past.endings;
      }
    }
  }

  lemma FailureIsTruthful(cfg: Settings, attempts: seq<Outcome>, past: Past, now: real)
    requires past.begin.Some? && past.begin.value.Begin? && Recorded(attempts, past) && NoAnswer(past)
    ensures |attempts| == 2 ==> Truthful(cfg, Failure(attempts), past, now)
    ensures DeadlinePassed(cfg, past.begin.value.started, now) ==>
              Truthful(cfg, Failure(attempts + [DeadlineExhausted]), past, now)
  {
    RecordedTimeouts(attempts, past);
    AllTimedOutMeans(attempts);
    AllTimedOutMeans(attempts + [DeadlineExhausted]);
    assert (attempts + [DeadlineExhausted])[..|attempts|] == attempts;
    if |attempts| == 2 {
      assert attempts[1] != DeadlineExhausted by {
        var skipped := if past.refused then 1 else 0;
        assert Records(attempts[skipped + (1 - skipped)], past.endings[1 - skipped]);
      }
    }
  }

  lemma DialIsConsistent(cfg: Settings, b: BreakerState, now: real, id: nat, started: real, attempts: seq<Outcome>,
                         primary: bool, probe: bool, past: Past)
    requires past.begin.Some? && past.begin.value.Begin? && past.begin.value.started == started
    requires Recorded(attempts, past) && NoAnswer(past)
    requires |past.endings| <= 1 && (past.refused ==> past.endings == [])
    requires primary <==> !past.refused && past.endings == []
    ensures Consistent(cfg, Dial(cfg, b, now, id, started, attempts, primary, probe).1, past, now)
  {
    hide Recorded, NoAnswer, Truthful, Failure;
    FailureIsTruthful(cfg, attempts, past, now);
  }

  lemma ResumeIsConsistent(cfg: Settings, w: World, c: Phase, past: Past)
    requires c.Admitted? && Consistent(cfg, c, past, w.mono)
    ensures var past' := past.(refused := past.refused || Refuses(cfg, w));
            Consistent(cfg, Resumed(cfg, w.breaker, w.mono, c.id, c.started).1, past', w.mono)
  {
    hide Dial;
    var past' := past.(refused := past.refused || Refuses(cfg, w));
    var (b, allowed) := Allows(cfg.policy, w.breaker, w.mono);
    if allowed {
      DialIsConsistent(cfg, b, w.mono, c.id, c.started, [], true,
                       HealthAt(cfg.policy, w.breaker, w.mono) == HalfOpen, past');
    } else {
      DialIsConsistent(cfg, b, w.mono, c.id, c.started, [CircuitOpen], false, false, past');
    }
  }

  lemma RecordedOneMore(attempts: seq<Outcome>, past: Past, o: Outcome, ending: Ending)
    requires Recorded(attempts, past) && Records(o, ending)
    ensures Recorded(attempts + [o], past.(endings := past.endings + [ending]))
  {}

  lemma FinishIsConsistent(cfg: Settings, b: BreakerState, now: real, c: Phase, ending: Ending, past: Past)
    requires c.Calling? && Consistent(cfg, c, past, now)
    ensures Consistent(cfg, Finished(cfg, b, now, c, ending).1, past.(endings := past.endings + [ending]), now)
  {
    hide Dial, Failure;
    var past' := past.(endings := past.endings + [ending]);
    assert LastIs(past', ending);
    if !ending.Cancel? {
      var o := OutcomeOf(ending);
      RecordedOneMore(c.attempts, past, o, ending);
      if ending.Late? || ending.Faulty? {
        if c.primary {
          DialIsConsistent(cfg, Learned(cfg, b, now, ending), now, c.id, c.started, c.attempts + [o],
                           false, false, past');
        } else {
          FailureIsTruthful(cfg, c.attempts + [o], past', now);
        }
      }
    }
  }

  /** The route has the past that its phase says, and no past if it has not begun. */
  predicate Accounted(cfg: Settings, w: World, r: nat, past: Past) {
    if r in w.routes then Consistent(cfg, w.routes[r], past, w.mono) else !past.refused && past.endings == []
  }

  lemma AccountedStep(cfg: Settings, start: World, before: seq<Event>, e: Event, r: nat)
    requires Possible(cfg, start, before) && Enabled(cfg, After(cfg, start, before), e)
    requires Accounted(cfg, After(cfg, start, before), r, PastOf(cfg, start, before, r))
    ensures Possible(cfg, start, before + [e])
    ensures Accounted(cfg, After(cfg, start, before + [e]), r, PastOf(cfg, start, before + [e], r))
  {
    hide Possible, After, PastOf, Refuses, Resumed, Finished, Recorded, NoAnswer, GaveUp, Run, Apply;
    PastGrows(cfg, start, before, e, r);
    var w, past := After(cfg, start, before), PastOf(cfg, start, before, r);
    assert past.endings + [] == past.endings;
    if e.Tick? {
      if r in w.routes { StaysConsistent(cfg, w.routes[r], past, w.mono, e.mono); }
    } else if e.route == r {
      match e
      case Begin(_, _, key, estimate, id) =>
        NegativeIsBad(cfg, w, key, estimate, id);
      case Resume(_) => ResumeIsConsistent(cfg, w, w.routes[r], past);
      case Finish(_, ending) => FinishIsConsistent(cfg, w.breaker, w.mono, w.routes[r], ending, past);
      case _ =>
    }
  }

  lemma NegativeIsBad(cfg: Settings, w: World, key: string, estimate: int, id: nat)
    ensures var reply := Apply(cfg.limits, Table(cfg, w), Reserve(key, estimate, w.wall, id), true).1;
            (reply.NegativeEstimate? <==> estimate < 0) && (reply.Exceeded? ==> estimate >= 0)
            && (reply.Reserved? || reply.Exceeded? || reply.NegativeEstimate?)
  {
    hide Run;
  }

  lemma {:induction false} AlwaysAccounted(cfg: Settings, mono: real, wall: real, events: seq<Event>, r: nat)
    requires Possible(cfg, Initial(mono, wall), events)
    ensures Accounted(cfg, After(cfg, Initial(mono, wall), events), r, PastOf(cfg, Initial(mono, wall), events, r))
    decreases |events|
  {
    if events != [] {
      hide Accounted, Next, Enabled, PastOf;
      var before, last := events[..|events| - 1], events[|events| - 1];
      AlwaysAccounted(cfg, mono, wall, before, r);
      assert before + [last] == events;
      AccountedStep(cfg, Initial(mono, wall), before, last, r);
    } else {
      assert EndingsOf(events, r) == [];
    }
  }

  /** In every interleaving, what a finished route reports is what happened to it: the tokens of the answer
      it got, a refusal of the breaker exactly when the breaker refused, every attempt under its own outcome
      and in order, a deadline only when it had passed, and a timeout only when nothing else was in the way. */
  lemma RouteReportsWhatHappened(cfg: Settings, mono: real, wall: real, events: seq<Event>, r: nat)
    requires Possible(cfg, Initial(mono, wall), events)
    ensures var w, past := After(cfg, Initial(mono, wall), events), PastOf(cfg, Initial(mono, wall), events, r);
            r in w.routes && w.routes[r].Ended? ==>
              && past.begin.Some? && past.begin.value.Begin?
              && Truthful(cfg, w.routes[r].result, past, w.mono)
  {
    AlwaysAccounted(cfg, mono, wall, events, r);
  }

  /** A route asks the primary unless the breaker refuses it, and the other provider only then or after a
      primary attempt that was not answered. */
  lemma PrimaryComesFirst(cfg: Settings, mono: real, wall: real, events: seq<Event>, r: nat)
    requires Possible(cfg, Initial(mono, wall), events)
    ensures var w, past := After(cfg, Initial(mono, wall), events), PastOf(cfg, Initial(mono, wall), events, r);
            r in w.routes && w.routes[r].Calling? ==>
              && (w.routes[r].primary <==> !past.refused && past.endings == [])
              && (past.endings == [] || past.endings == [Late] || past.endings == [Faulty])
              && Recorded(w.routes[r].attempts, past)
  {
    AlwaysAccounted(cfg, mono, wall, events, r);
  }

  /** The breaker refuses the primary if and only if the attempts that it did not answer in a row have reached
      the threshold, and either the last of them is less than the recovery time ago, or the half-open slot is
      taken, and then by a primary attempt that is still in flight. */
  lemma PrimaryIsSkippedIff(cfg: Settings, mono: real, wall: real, events: seq<Event>)
    requires Possible(cfg, Initial(mono, wall), events)
    ensures var w := After(cfg, Initial(mono, wall), events);
            var verdicts := PrimaryEndings(cfg, Initial(mono, wall), events);
            && (Refuses(cfg, w) <==>
                && LastMissed(verdicts).Some? && MissedInARow(verdicts) >= cfg.policy.failureThreshold
                && (w.mono - LastMissed(verdicts).value < cfg.policy.recoveryTime || w.breaker.probeInFlight))
            && (w.breaker.probeInFlight ==> exists r :: OnPrimary(w, r))
  {
    hide Possible, After, PrimaryEndings, MissedInARow, LastMissed;
    AlwaysReflects(cfg, mono, wall, events);
    MissedHasTime(PrimaryEndings(cfg, Initial(mono, wall), events));
    ProbeAlwaysOwned(cfg, mono, wall, events);
  }
}
