/** The breaker under concurrent routes. */
module BreakerTheorems {
  import opened Scanner
  import opened RateLimiter
  import opened Breaker
  import opened Router

  predicate OnPrimary(w: World, r: nat) {
    r in w.routes && w.routes[r].Calling? && w.routes[r].primary
  }

  // The breaker never wedges

  /** The half-open slot is taken only while a route that took it has its attempt in flight. */
  ghost predicate ProbeOwned(w: World) {
    w.breaker.probeInFlight ==> exists r :: OnPrimary(w, r) && w.routes[r].probe
  }

  lemma ProbeOwnedStep(cfg: Settings, w: World, e: Event)
    requires Enabled(cfg, w, e) && ProbeOwned(w)
    ensures ProbeOwned(Next(cfg, w, e))
  {
    var w' := Next(cfg, w, e);
    if w'.breaker.probeInFlight {
      if w.breaker.probeInFlight {
        var r :| OnPrimary(w, r) && w.routes[r].probe;
        assert e.Finish? ==> e.route != r;
        assert OnPrimary(w', r) && w'.routes[r].probe;
      } else {
        assert e.Resume?;
        assert OnPrimary(w', e.route) && w'.routes[e.route].probe;
      }
    }
  }

  lemma {:induction false} ProbeAlwaysOwned(cfg: Settings, mono: real, wall: real, events: seq<Event>)
    requires Possible(cfg, Initial(mono, wall), events)
    ensures ProbeOwned(After(cfg, Initial(mono, wall), events))
    decreases |events|
  {
    if events != [] {
      var before := events[..|events| - 1];
      ProbeAlwaysOwned(cfg, mono, wall, before);
      ProbeOwnedStep(cfg, After(cfg, Initial(mono, wall), before), events[|events| - 1]);
    }
  }

  /** In every reachable state, a half-open breaker without a primary attempt in flight admits the next
      request, however earlier attempts ended: answered, refused, timed out, cancelled, never dialled. */
  lemma BreakerNeverWedges(cfg: Settings, mono: real, wall: real, events: seq<Event>)
    requires Possible(cfg, Initial(mono, wall), events)
    ensures var w := After(cfg, Initial(mono, wall), events);
            HealthAt(cfg.policy, w.breaker, w.mono) == HalfOpen && (forall r :: !OnPrimary(w, r)) ==>
              Allows(cfg.policy, w.breaker, w.mono).1
  {
    ProbeAlwaysOwned(cfg, mono, wall, events);
  }

  // One probe at a time

  /** Time passes only as long as every attempt in flight is within its timeout. */
  predicate Punctual(cfg: Settings, start: World, events: seq<Event>)
    requires Possible(cfg, start, events)
  {
    events == [] ||
    (&& Punctual(cfg, start, events[..|events| - 1])
     && OnTime(After(cfg, start, events[..|events| - 1]), events[|events| - 1]))
  }

  predicate OnTime(w: World, e: Event) {
    e.Tick? ==> forall r | r in w.routes && w.routes[r].Calling? :: e.mono <= w.routes[r].since + w.routes[r].timeout
  }

  /** What caps an attempt: its own timeout, or the overall deadline if that is shorter. */
  function Bound(cfg: Settings): real {
    if cfg.totalDeadline.Some? && cfg.totalDeadline.value < cfg.attemptTimeout then cfg.totalDeadline.value
    else cfg.attemptTimeout
  }

  /** The longest that an attempt can be in flight. */
  function LongestAttempt(cfg: Settings): real {
    if Bound(cfg) > 0.0 then Bound(cfg) else 0.0
  }

  /** A primary attempt that started after the breaker opened. */
  predicate StartedSince(w: World, r: nat, moment: real) {
    OnPrimary(w, r) && w.routes[r].since > moment
  }

  ghost predicate InTime(cfg: Settings, w: World) {
    && (forall r | r in w.routes && w.routes[r].Admitted? :: w.routes[r].started <= w.mono)
    && (forall r | OnPrimary(w, r) ::
          w.routes[r].since <= w.mono <= w.routes[r].since + LongestAttempt(cfg)
          && w.routes[r].timeout <= Bound(cfg))
  }

  ghost predicate OneProbe(cfg: Settings, w: World) {
    && InTime(cfg, w)
    && (w.breaker.openedAt.Some? ==>
          var o := w.breaker.openedAt.value;
          && o <= w.mono && w.breaker.failures >= cfg.policy.failureThreshold
          && (forall r | StartedSince(w, r, o) ::
                w.breaker.probeInFlight && w.routes[r].since >= o + cfg.policy.recoveryTime)
          && (forall r, s | StartedSince(w, r, o) && StartedSince(w, s, o) :: r == s))
  }

  lemma InTimeStep(cfg: Settings, w: World, e: Event)
    requires Enabled(cfg, w, e) && OnTime(w, e) && InTime(cfg, w)
    ensures InTime(cfg, Next(cfg, w, e))
  {
    hide Table, Apply;
    var w' := Next(cfg, w, e);
    forall r | OnPrimary(w', r)
      ensures w'.routes[r].since <= w'.mono <= w'.routes[r].since + LongestAttempt(cfg)
      ensures w'.routes[r].timeout <= Bound(cfg)
    {
      if e.Tick? {
        assert OnPrimary(w, r) && w.routes[r].Calling?;
      } else if e.Resume? && e.route == r {
      } else {
        assert OnPrimary(w, r) && w'.routes[r] == w.routes[r];
      }
    }
  }

  lemma OneProbeResume(cfg: Settings, w: World, r: nat)
    requires LongestAttempt(cfg) < cfg.policy.recoveryTime
    requires Enabled(cfg, w, Resume(r)) && OneProbe(cfg, w)
    ensures OneProbe(cfg, Next(cfg, w, Resume(r)))
  {
    InTimeStep(cfg, w, Resume(r));
    var w' := Next(cfg, w, Resume(r));
    assert forall q | q != r && OnPrimary(w', q) :: OnPrimary(w, q) && w'.routes[q] == w.routes[q];
    if w.breaker.openedAt.Some? {
      var o := w.breaker.openedAt.value;
      assert forall q | q != r && StartedSince(w', q, o) :: StartedSince(w, q, o);
    }
  }

  lemma OneProbeFinish(cfg: Settings, w: World, r: nat, ending: Ending)
    requires LongestAttempt(cfg) < cfg.policy.recoveryTime
    requires Enabled(cfg, w, Finish(r, ending)) && OneProbe(cfg, w)
    ensures OneProbe(cfg, Next(cfg, w, Finish(r, ending)))
  {
    InTimeStep(cfg, w, Finish(r, ending));
    var w' := Next(cfg, w, Finish(r, ending));
    assert forall q | OnPrimary(w', q) :: q != r && OnPrimary(w, q) && w'.routes[q] == w.routes[q];
    assert forall q, o: real | StartedSince(w', q, o) :: StartedSince(w, q, o);
    if w.breaker.openedAt.Some? && w.routes[r].primary {
      var o := w.breaker.openedAt.value;
      assert OnPrimary(w, r);
      assert forall q | q != r :: !StartedSince(w, q, o);
    }
  }

  lemma OneProbeStep(cfg: Settings, w: World, e: Event)
    requires LongestAttempt(cfg) < cfg.policy.recoveryTime
    requires Enabled(cfg, w, e) && OnTime(w, e) && OneProbe(cfg, w)
    ensures OneProbe(cfg, Next(cfg, w, e))
  {
    match e
    case Resume(r) => OneProbeResume(cfg, w, r);
    case Finish(r, ending) => OneProbeFinish(cfg, w, r, ending);
    case _ =>
      InTimeStep(cfg, w, e);
      var w' := Next(cfg, w, e);
      assert w'.breaker == w.breaker;
      assert forall q | OnPrimary(w', q) :: OnPrimary(w, q) && w'.routes[q] == w.routes[q];
      assert forall q, o: real | StartedSince(w', q, o) :: StartedSince(w, q, o);
  }

  lemma {:induction false} AlwaysOneProbe(cfg: Settings, mono: real, wall: real, events: seq<Event>)
    requires LongestAttempt(cfg) < cfg.policy.recoveryTime
    requires Possible(cfg, Initial(mono, wall), events) && Punctual(cfg, Initial(mono, wall), events)
    ensures OneProbe(cfg, After(cfg, Initial(mono, wall), events))
    decreases |events|
  {
    if events != [] {
      hide Next, Enabled, OneProbe, OnTime;
      var before := events[..|events| - 1];
      AlwaysOneProbe(cfg, mono, wall, before);
      OneProbeStep(cfg, After(cfg, Initial(mono, wall), before), events[|events| - 1]);
    } else {
      assert forall r :: !OnPrimary(Initial(mono, wall), r);
    }
  }

  /** When every attempt ends within its timeout, and the longest attempt is shorter than the recovery
      time, then no two primary attempts are in flight while the breaker is half-open. */
  lemma SingleProbe(cfg: Settings, mono: real, wall: real, events: seq<Event>, r: nat, s: nat)
    requires LongestAttempt(cfg) < cfg.policy.recoveryTime
    requires Possible(cfg, Initial(mono, wall), events) && Punctual(cfg, Initial(mono, wall), events)
    ensures var w := After(cfg, Initial(mono, wall), events);
            HealthAt(cfg.policy, w.breaker, w.mono) == HalfOpen && OnPrimary(w, r) && OnPrimary(w, s) ==> r == s
  {
    AlwaysOneProbe(cfg, mono, wall, events);
    var w := After(cfg, Initial(mono, wall), events);
    if HealthAt(cfg.policy, w.breaker, w.mono) == HalfOpen && OnPrimary(w, r) && OnPrimary(w, s) {
      var o := w.breaker.openedAt.value;
      assert StartedSince(w, r, o) && StartedSince(w, s, o);
    }
  }

  // Requests as the gateway makes them

  /** Every request is estimated at two tokens at least: one for the prompt, one for the answer. */
  predicate Received(events: seq<Event>) {
    events == [] ||
    (Received(events[..|events| - 1]) && (events[|events| - 1].Begin? ==> events[|events| - 1].estimate >= 2))
  }

  /** Some request fits the limit, and an attempt has time to start. */
  predicate Dials(cfg: Settings) {
    && cfg.limits.limit >= 2
    && (if cfg.totalDeadline.Some? then cfg.totalDeadline.value > 0.0 else cfg.attemptTimeout > 0.0)
  }

  /** No attempt is in flight; with too low a limit, no request is admitted either. */
  ghost predicate NothingDialled(cfg: Settings, w: World) {
    && (cfg.limits.limit < 2 ==> Table(cfg, w) == [])
    && (forall r | r in w.routes ::
          && !w.routes[r].Calling?
          && (w.routes[r].Admitted? ==> cfg.limits.limit >= 2 && w.routes[r].started <= w.mono))
  }

  lemma NoTimeToDial(cfg: Settings, b: BreakerState, now: real, id: nat, started: real)
    requires !Dials(cfg) && cfg.limits.limit >= 2 && started <= now
    ensures Resumed(cfg, b, now, id, started).1.Releasing?
  {
    hide Failure;
  }

  lemma EmptyTableStays(cfg: Limits, op: Op)
    requires cfg.limit < 2 && (op.Reserve? ==> op.estimate >= 2)
    ensures Apply(cfg, [], op, true).0 == [] && !Apply(cfg, [], op, true).1.Reserved?
  {}

  lemma NothingDialledStep(cfg: Settings, w: World, e: Event)
    requires !Dials(cfg) && Enabled(cfg, w, e) && NothingDialled(cfg, w) && (e.Begin? ==> e.estimate >= 2)
    ensures NothingDialled(cfg, Next(cfg, w, e))
  {
    hide Apply, Run, Resumed, Dials, Drawn;
    match e
    case Begin(_, _, key, estimate, id) => TableStaysEmpty(cfg, w, Reserve(key, estimate, w.wall, id));
    case Resume(r) => NoTimeToDial(cfg, w.breaker, w.mono, w.routes[r].id, w.routes[r].started);
    case CommitRow(r) => TableStaysEmpty(cfg, w, Commit(w.routes[r].id, w.routes[r].tokens));
    case ReleaseRow(r) => TableStaysEmpty(cfg, w, Release(w.routes[r].id));
    case _ =>
  }

  lemma TableStaysEmpty(cfg: Settings, w: World, op: Op)
    requires NothingDialled(cfg, w) && (op.Reserve? ==> op.estimate >= 2)
    ensures cfg.limits.limit < 2 ==>
              Run(cfg.limits, w.calls + [op], true).0 == [] && !Apply(cfg.limits, Table(cfg, w), op, true).1.Reserved?
  {
    hide Apply, Run;
    OneMoreCall(cfg, w, op);
    if cfg.limits.limit < 2 {
      EmptyTableStays(cfg.limits, op);
    }
  }

  lemma {:induction false} NothingEverDialled(cfg: Settings, mono: real, wall: real, events: seq<Event>)
    requires !Dials(cfg) && Possible(cfg, Initial(mono, wall), events) && Received(events)
    ensures NothingDialled(cfg, After(cfg, Initial(mono, wall), events))
    decreases |events|
  {
    if events != [] {
      hide Next, Enabled, NothingDialled;
      var before := events[..|events| - 1];
      NothingEverDialled(cfg, mono, wall, before);
      NothingDialledStep(cfg, After(cfg, Initial(mono, wall), before), events[|events| - 1]);
    }
  }

  // Why the attempts have to be shorter

  lemma Extend(cfg: Settings, start: World, events: seq<Event>, e: Event)
    requires Possible(cfg, start, events) && Punctual(cfg, start, events) && Received(events)
    requires Enabled(cfg, After(cfg, start, events), e) && OnTime(After(cfg, start, events), e)
    requires e.Begin? ==> e.estimate >= 2
    ensures Possible(cfg, start, events + [e]) && Punctual(cfg, start, events + [e]) && Received(events + [e])
    ensures After(cfg, start, events + [e]) == Next(cfg, After(cfg, start, events), e)
  {
    assert (events + [e])[..|events|] == events;
  }

  /** One key per route, told apart by their lengths. */
  function KeyOf(r: nat): string {
    seq(r, _ => 'k')
  }

  predicate KeysShorter(rows: seq<Row>, length: nat) {
    rows == [] || (|rows[0].key| < length && KeysShorter(rows[1..], length))
  }

  lemma {:induction false} NewKeyIsUnused(rows: seq<Row>, cutoff: real, row: Row)
    requires KeysShorter(rows, |row.key|)
    ensures Sum(rows, row.key, cutoff) == 0
    ensures KeysShorter(Evict(rows, cutoff) + [row], |row.key| + 1)
  {
    if rows != [] {
      NewKeyIsUnused(rows[1..], cutoff, row);
      assert ([rows[0]] + Evict(rows[1..], cutoff) + [row])[1..] == Evict(rows[1..], cutoff) + [row];
    } else {
      assert [row][1..] == [];
    }
  }

  /** One more route, with a key of its own, gets its reservation. */
  lemma Begun(cfg: Settings, start: World, events: seq<Event>, r: nat) returns (more: seq<Event>)
    requires cfg.limits.limit >= 2
    requires Possible(cfg, start, events) && Punctual(cfg, start, events) && Received(events)
    requires var w := After(cfg, start, events);
             && KeysShorter(Table(cfg, w), r)
             && (forall q | q in w.routes :: q < r && ReservationOf(w.routes[q]) == Some(q))
    ensures Possible(cfg, start, more) && Punctual(cfg, start, more) && Received(more)
    ensures var w, w' := After(cfg, start, events), After(cfg, start, more);
            && KeysShorter(Table(cfg, w'), r + 1) && w'.mono == w.mono && w'.breaker == w.breaker
            && w'.routes == w.routes[r := Admitted(r, w.mono)]
  {
    hide Possible, Punctual, Received, After, Sum, Evict, KeysShorter, Run, OnTime;
    var w := After(cfg, start, events);
    var begin := Begin(r, w.mono, KeyOf(r), 2, r);
    NewKeyIsUnused(Table(cfg, w), w.wall - cfg.limits.window, Row(r, KeyOf(r), 2, w.wall, false));
    OneMoreCall(cfg, w, Reserve(KeyOf(r), 2, w.wall, r));
    Extend(cfg, start, events, begin);
    more := events + [begin];
  }

  /** It goes on to its first attempt. */
  lemma Started(cfg: Settings, start: World, events: seq<Event>, r: nat) returns (more: seq<Event>)
    requires cfg.limits.limit >= 2
    requires Possible(cfg, start, events) && Punctual(cfg, start, events) && Received(events)
    requires var w := After(cfg, start, events);
             && KeysShorter(Table(cfg, w), r)
             && (forall q | q in w.routes :: q < r && ReservationOf(w.routes[q]) == Some(q))
    ensures Possible(cfg, start, more) && Punctual(cfg, start, more) && Received(more)
    ensures var w, w' := After(cfg, start, events), After(cfg, start, more);
            && KeysShorter(Table(cfg, w'), r + 1) && w'.mono == w.mono
            && w'.breaker == Resumed(cfg, w.breaker, w.mono, r, w.mono).0
            && w'.routes == w.routes[r := Resumed(cfg, w.breaker, w.mono, r, w.mono).1]
  {
    hide Possible, Punctual, Received, After, KeysShorter, Run, Resumed;
    var begun := Begun(cfg, start, events, r);
    Extend(cfg, start, begun, Resume(r));
    more := begun + [Resume(r)];
  }

  /** A route that begins now and is let through starts its attempt on the primary. */
  lemma ResumesOnPrimary(cfg: Settings, b: BreakerState, now: real, r: nat)
    requires Dials(cfg) && HealthAt(cfg.policy, b, now) != Open && !b.probeInFlight
    ensures Resumed(cfg, b, now, r, now) ==
              (b.(probeInFlight := HealthAt(cfg.policy, b, now) == HalfOpen),
               Calling(r, now, [], true, now, Bound(cfg), HealthAt(cfg.policy, b, now) == HalfOpen))
  {}

  /** After its failure it has an attempt on the other provider. */
  lemma FallsBack(cfg: Settings, b: BreakerState, r: nat)
    requires Dials(cfg)
    ensures var (b', phase) := Finished(cfg, b, 0.0, Calling(r, 0.0, [], true, 0.0, Bound(cfg), false), Faulty);
            && b' == Failed(cfg.policy, b, 0.0)
            && phase == Calling(r, 0.0, [RetryableError], false, 0.0, Bound(cfg), false)
  {}

  /** All routes, none of them beyond `last`, have an attempt in flight that started at time 0, route 0 on the
      primary. */
  ghost predicate Stalled(cfg: Settings, w: World, last: nat) {
    && KeysShorter(Table(cfg, w), last + 1) && OnPrimary(w, 0)
    && (forall r | r in w.routes ::
          && r <= last && w.routes[r].Calling? && w.routes[r].id == r
          && w.routes[r].since == 0.0 && w.routes[r].timeout == Bound(cfg))
  }

  lemma {:induction false} FailingRoutes(cfg: Settings, n: nat) returns (events: seq<Event>)
    requires Dials(cfg) && (n <= cfg.policy.failureThreshold || n <= 1)
    ensures var start := Initial(0.0, 0.0);
            && Possible(cfg, start, events) && Punctual(cfg, start, events) && Received(events)
            && var w := After(cfg, start, events);
               && Stalled(cfg, w, n) && w.mono == 0.0
               && w.breaker == BreakerState(n, if n > 0 && n >= cfg.policy.failureThreshold then Some(0.0) else None,
                                            false)
  {
    hide Possible, Punctual, Received, After, KeysShorter, Run, Resumed, Finished;
    var start := Initial(0.0, 0.0);
    if n == 0 {
      ResumesOnPrimary(cfg, NEW, 0.0, 0);
      NothingYet(cfg, start);
      events := Started(cfg, start, [], 0);
    } else {
      events := FailingRoutes(cfg, n - 1);
      var w := After(cfg, start, events);
      ResumesOnPrimary(cfg, w.breaker, 0.0, n);
      events := Started(cfg, start, events, n);
      FallsBack(cfg, w.breaker, n);
      Extend(cfg, start, events, Finish(n, Faulty));
      events := events + [Finish(n, Faulty)];
    }
  }

  lemma NothingYet(cfg: Settings, start: World)
    requires start == Initial(0.0, 0.0)
    ensures Possible(cfg, start, []) && Punctual(cfg, start, []) && Received([]) && After(cfg, start, []) == start
    ensures KeysShorter(Table(cfg, start), 0)
  {}

  /** If an attempt may take as long as the recovery, then two primary attempts can be in flight while
      the breaker is half-open, whatever the failure threshold. */
  lemma TwoProbes(cfg: Settings) returns (events: seq<Event>, r: nat)
    requires Dials(cfg) && cfg.policy.recoveryTime <= LongestAttempt(cfg)
    ensures var start := Initial(0.0, 0.0);
            && Possible(cfg, start, events) && Punctual(cfg, start, events) && Received(events)
            && var w := After(cfg, start, events);
               && HealthAt(cfg.policy, w.breaker, w.mono) == HalfOpen
               && r != 0 && OnPrimary(w, 0) && OnPrimary(w, r)
  {
    hide Possible, Punctual, Received, After, KeysShorter, Run, Resumed;
    var start := Initial(0.0, 0.0);
    var n := if cfg.policy.failureThreshold > 1 then cfg.policy.failureThreshold else 1;
    events := FailingRoutes(cfg, n);
    if cfg.policy.recoveryTime > 0.0 {
      var tick := Tick(cfg.policy.recoveryTime, After(cfg, start, events).wall);
      Extend(cfg, start, events, tick);
      events := events + [tick];
    }
    r := n + 1;
    ResumesOnPrimary(cfg, After(cfg, start, events).breaker, After(cfg, start, events).mono, r);
    events := Started(cfg, start, events, r);
  }

  /** In no run of requests are two primary attempts in flight while the breaker is half-open. */
  ghost predicate AlwaysSingleProbe(cfg: Settings) {
    forall mono: real, wall: real, events: seq<Event>, r: nat, s: nat |
      Possible(cfg, Initial(mono, wall), events) && Punctual(cfg, Initial(mono, wall), events) && Received(events) ::
      var w := After(cfg, Initial(mono, wall), events);
      HealthAt(cfg.policy, w.breaker, w.mono) == HalfOpen && OnPrimary(w, r) && OnPrimary(w, s) ==> r == s
  }

  /** For all settings: the longest attempt and the recovery time decide it, unless no attempt is ever
      made. */
  lemma SingleProbeIffShorter(cfg: Settings)
    ensures AlwaysSingleProbe(cfg) <==> (Dials(cfg) ==> LongestAttempt(cfg) < cfg.policy.recoveryTime)
  {
    if Dials(cfg) && LongestAttempt(cfg) >= cfg.policy.recoveryTime {
      var events, r := TwoProbes(cfg);
    } else {
      forall mono: real, wall: real, events: seq<Event>, r: nat, s: nat |
        Possible(cfg, Initial(mono, wall), events) && Punctual(cfg, Initial(mono, wall), events) && Received(events)
        ensures var w := After(cfg, Initial(mono, wall), events);
                HealthAt(cfg.policy, w.breaker, w.mono) == HalfOpen && OnPrimary(w, r) && OnPrimary(w, s) ==> r == s
      {
        if Dials(cfg) {
          SingleProbe(cfg, mono, wall, events, r, s);
        } else {
          NothingEverDialled(cfg, mono, wall, events);
        }
      }
    }
  }

  // When it opens

  function FailedAll(policy: Policy, b: BreakerState, times: seq<real>): BreakerState {
    if times == [] then b
    else Failed(policy, FailedAll(policy, b, times[..|times| - 1]), times[|times| - 1])
  }

  /** After a success, the breaker opens with the failure that makes the threshold, not before, and every
      further failure starts the recovery time anew. */
  lemma {:induction false} TripsAtThreshold(policy: Policy, b: BreakerState, times: seq<real>, now: real)
    requires times != [] ==> now >= times[|times| - 1]
    ensures var b' := FailedAll(policy, Succeeded(b), times);
            && b'.failures == |times| && !b'.probeInFlight
            && (HealthAt(policy, b', now) == Closed <==> times == [] || |times| < policy.failureThreshold)
            && (b'.openedAt.Some? ==> b'.openedAt.value == times[|times| - 1])
  {
    if times != [] {
      var before := times[..|times| - 1];
      TripsAtThreshold(policy, b, before, if before == [] then now else before[|before| - 1]);
    }
  }
}
