/** What the breaker has learned after any run of concurrent routes. */
module BreakerHealth {
  import opened Scanner
  import opened Breaker
  import opened Router

  /** How a primary attempt ended, and when. */
  datatype Verdict = Verdict(ending: Ending, moment: real)

  /** The ends of the primary attempts of a run, in order. */
  function PrimaryEndings(cfg: Settings, start: World, events: seq<Event>): seq<Verdict>
    requires Possible(cfg, start, events)
  {
    if events == [] then []
    else
      var before, last := events[..|events| - 1], events[|events| - 1];
      var w := After(cfg, start, before);
      PrimaryEndings(cfg, start, before)
      + if last.Finish? && w.routes[last.route].primary then [Verdict(last.ending, w.mono)] else []
  }

  /** The provider answered: with a completion, or with a client error. */
  predicate Answered(ending: Ending) {
    ending.Completed? || ending.Rejected?
  }

  /** It did not: a timeout, 429, 5xx or transport failure. A cancellation is neither. */
  predicate Missed(ending: Ending) {
    ending.Late? || ending.Faulty?
  }

  /** How often it failed to answer since it last answered. */
  function MissedInARow(verdicts: seq<Verdict>): nat {
    if verdicts == [] then 0
    else
      var before, ending := verdicts[..|verdicts| - 1], verdicts[|verdicts| - 1].ending;
      if Answered(ending) then 0
      else if Missed(ending) then MissedInARow(before) + 1
      else MissedInARow(before)
  }

  /** When it last failed to answer, if it has not answered since. */
  function LastMissed(verdicts: seq<Verdict>): Option<real> {
    if verdicts == [] then None
    else
      var last := verdicts[|verdicts| - 1];
      if Answered(last.ending) then None
      else if Missed(last.ending) then Some(last.moment)
      else LastMissed(verdicts[..|verdicts| - 1])
  }

  /** The count, whether it has reached the threshold, and since when. */
  predicate Reflects(policy: Policy, b: BreakerState, verdicts: seq<Verdict>) {
    && b.failures == MissedInARow(verdicts)
    && b.openedAt ==
       if MissedInARow(verdicts) > 0 && MissedInARow(verdicts) >= policy.failureThreshold
       then LastMissed(verdicts) else None
  }

  lemma OneMoreVerdict(policy: Policy, b: BreakerState, verdicts: seq<Verdict>, v: Verdict, b': BreakerState)
    requires Reflects(policy, b, verdicts)
    requires match v.ending
             case Completed(_) => b'.failures == 0 && b'.openedAt == None
             case Rejected => b'.failures == 0 && b'.openedAt == None
             case Cancel => b'.failures == b.failures && b'.openedAt == b.openedAt
             case _ =>
               && b'.failures == b.failures + 1
               && b'.openedAt == if b.failures + 1 >= policy.failureThreshold then Some(v.moment) else b.openedAt
    ensures Reflects(policy, b', verdicts + [v])
  {
    assert (verdicts + [v])[..|verdicts|] == verdicts;
  }

  lemma ReflectsStep(cfg: Settings, start: World, before: seq<Event>, e: Event)
    requires Possible(cfg, start, before) && Enabled(cfg, After(cfg, start, before), e)
    requires Reflects(cfg.policy, After(cfg, start, before).breaker, PrimaryEndings(cfg, start, before))
    ensures Possible(cfg, start, before + [e])
    ensures Reflects(cfg.policy, After(cfg, start, before + [e]).breaker, PrimaryEndings(cfg, start, before + [e]))
  {
    OneMore(cfg, start, before, e);
    assert (before + [e])[..|before|] == before;
    hide Possible, After, Reflects, HealthAt;
    var w, verdicts := After(cfg, start, before), PrimaryEndings(cfg, start, before);
    if e.Finish? && w.routes[e.route].primary {
      OneMoreVerdict(cfg.policy, w.breaker, verdicts, Verdict(e.ending, w.mono), Next(cfg, w, e).breaker);
    } else {
      SameReflects(cfg.policy, w.breaker, Next(cfg, w, e).breaker, verdicts);
      assert verdicts + [] == verdicts;
    }
  }

  lemma SameReflects(policy: Policy, b: BreakerState, b': BreakerState, verdicts: seq<Verdict>)
    requires Reflects(policy, b, verdicts) && b'.failures == b.failures && b'.openedAt == b.openedAt
    ensures Reflects(policy, b', verdicts)
  {}

  lemma {:induction false} AlwaysReflects(cfg: Settings, mono: real, wall: real, events: seq<Event>)
    requires Possible(cfg, Initial(mono, wall), events)
    ensures Reflects(cfg.policy, After(cfg, Initial(mono, wall), events).breaker,
                     PrimaryEndings(cfg, Initial(mono, wall), events))
    decreases |events|
  {
    if events != [] {
      hide Reflects, Next, Enabled;
      var before, last := events[..|events| - 1], events[|events| - 1];
      AlwaysReflects(cfg, mono, wall, before);
      assert before + [last] == events;
      ReflectsStep(cfg, Initial(mono, wall), before, last);
    }
  }

  /** In every reachable state the breaker has counted the primary attempts that were not answered since the
      last one that was: cancelled and undialled ones and those of the other provider do not count, and a
      client error is an answer. It is closed if and only if they have not reached the threshold; otherwise
      the last of them is when it opened. */
  lemma BreakerCountsUnanswered(cfg: Settings, mono: real, wall: real, events: seq<Event>, now: real)
    requires Possible(cfg, Initial(mono, wall), events)
    ensures var b := After(cfg, Initial(mono, wall), events).breaker;
            var verdicts := PrimaryEndings(cfg, Initial(mono, wall), events);
            && b.failures == MissedInARow(verdicts)
            && (HealthAt(cfg.policy, b, now) == Closed <==>
                MissedInARow(verdicts) == 0 || MissedInARow(verdicts) < cfg.policy.failureThreshold)
            && (b.openedAt.Some? ==> b.openedAt == LastMissed(verdicts))
  {
    AlwaysReflects(cfg, mono, wall, events);
    MissedHasTime(PrimaryEndings(cfg, Initial(mono, wall), events));
  }

  lemma {:induction false} MissedHasTime(verdicts: seq<Verdict>)
    ensures MissedInARow(verdicts) > 0 <==> LastMissed(verdicts).Some?
  {
    if verdicts != [] {
      MissedHasTime(verdicts[..|verdicts| - 1]);
    }
  }

  lemma {:induction false} NothingMissed(verdicts: seq<Verdict>)
    requires forall v <- verdicts :: !Missed(v.ending)
    ensures MissedInARow(verdicts) == 0
  {
    if verdicts != [] {
      NothingMissed(verdicts[..|verdicts| - 1]);
      assert verdicts[|verdicts| - 1] in verdicts;
    }
  }

  /** A primary that answers every attempt it is given, be it with client errors, is never skipped. */
  lemma AnsweringPrimaryStaysClosed(cfg: Settings, mono: real, wall: real, events: seq<Event>, now: real)
    requires Possible(cfg, Initial(mono, wall), events)
    requires forall v <- PrimaryEndings(cfg, Initial(mono, wall), events) :: !Missed(v.ending)
    ensures HealthAt(cfg.policy, After(cfg, Initial(mono, wall), events).breaker, now) == Closed
  {
    BreakerCountsUnanswered(cfg, mono, wall, events, now);
    NothingMissed(PrimaryEndings(cfg, Initial(mono, wall), events));
  }
}
