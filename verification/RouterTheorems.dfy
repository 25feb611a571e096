/** Reservations under concurrent routes. */
module RouterTheorems {
  import opened Scanner
  import opened RateLimiter
  import opened RateLimiterTheorems
  import opened Router

  // Rows by identifier

  function Lookup(hist: seq<Entry>, id: nat): Option<Row> {
    if hist == [] then None else if hist[0].row.id == id then Some(hist[0].row) else Lookup(hist[1..], id)
  }

  predicate UniqueIds(hist: seq<Entry>) {
    hist == [] || (Lookup(hist[1..], hist[0].row.id) == None && UniqueIds(hist[1..]))
  }

  lemma {:induction false} LookupPlus(hist: seq<Entry>, e: Entry, id: nat)
    ensures Lookup(hist + [e], id) ==
              if Lookup(hist, id).Some? then Lookup(hist, id) else if e.row.id == id then Some(e.row) else None
    ensures UniqueIds(hist) && Lookup(hist, e.row.id) == None ==> UniqueIds(hist + [e])
  {
    if hist == [] {
      assert (hist + [e])[1..] == [];
    } else {
      LookupPlus(hist[1..], e, id);
      LookupPlus(hist[1..], e, hist[0].row.id);
      assert (hist + [e])[1..] == hist[1..] + [e];
    }
  }

  lemma {:induction false} LookupCommit(hist: seq<Entry>, c: nat, actual: int, id: nat)
    ensures Lookup(CommitEntries(hist, c, actual), id) ==
              if Lookup(hist, id).Some? then Some(CommittedRow(Lookup(hist, id).value, c, actual)) else None
    ensures UniqueIds(hist) ==> UniqueIds(CommitEntries(hist, c, actual))
  {
    if hist != [] {
      LookupCommit(hist[1..], c, actual, id);
      LookupCommit(hist[1..], c, actual, hist[0].row.id);
    }
  }

  lemma {:induction false} LookupDelete(hist: seq<Entry>, d: nat, id: nat)
    ensures Lookup(DeleteEntries(hist, d), id) == if id == d then None else Lookup(hist, id)
    ensures UniqueIds(hist) ==> UniqueIds(DeleteEntries(hist, d))
  {
    if hist != [] {
      LookupDelete(hist[1..], d, id);
      LookupDelete(hist[1..], d, hist[0].row.id);
    }
  }

  lemma {:induction false} LookupFinds(hist: seq<Entry>, row: Row)
    requires row in Rows(hist) && UniqueIds(hist)
    ensures Lookup(hist, row.id) == Some(row)
  {
    if hist[0].row != row {
      assert row in Rows(hist[1..]);
      LookupFinds(hist[1..], row);
    }
  }

  lemma {:induction false} EvictedRowsExist(rows: seq<Row>, cutoff: real, row: Row)
    requires row in Evict(rows, cutoff)
    ensures row in rows
  {
    if rows[0].createdAt < cutoff || row != rows[0] {
      EvictedRowsExist(rows[1..], cutoff, row);
    }
  }

  // The invariant

  /** What the log says about a route's reservation: held while the route is in flight, then committed
      with the provider's total, or gone. */
  predicate Accounted(hist: seq<Entry>, phase: Phase) {
    match phase
    case Ended(None, _) => true
    case Ended(Some(id), result) =>
      if result.Routed? then
        Lookup(hist, id).Some? && Lookup(hist, id).value.committed && Lookup(hist, id).value.tokens == result.tokens
      else Lookup(hist, id) == None
    case _ => Lookup(hist, phase.id).Some? && !Lookup(hist, phase.id).value.committed
  }

  ghost predicate Conserved(hist: seq<Entry>, routes: map<nat, Phase>) {
    && UniqueIds(hist)
    && (forall r | r in routes :: Accounted(hist, routes[r]))
    && (forall r | r in routes && routes[r].Committing? :: routes[r].tokens >= 0)
    && (forall r | r in routes && routes[r].Releasing? :: !routes[r].result.Routed?)
    && (forall r, s | r in routes && s in routes && ReservationOf(routes[r]).Some?
                      && ReservationOf(routes[r]) == ReservationOf(routes[s]) :: r == s)
    && (forall id: nat | Lookup(hist, id).Some? :: Drawn(routes, id))
  }

  lemma LookupChange(hist: seq<Entry>, routes: map<nat, Phase>, r: nat, phase: Phase)
    requires r in routes && Conserved(hist, routes) && Accounted(hist, phase)
    requires ReservationOf(phase) == ReservationOf(routes[r])
    requires (phase.Committing? ==> phase.tokens >= 0) && (phase.Releasing? ==> !phase.result.Routed?)
    ensures Conserved(hist, routes[r := phase])
  {
    var routes' := routes[r := phase];
    forall id: nat | Lookup(hist, id).Some? ensures Drawn(routes', id) {
      var q :| q in routes && ReservationOf(routes[q]) == Some(id);
      assert q in routes' && ReservationOf(routes'[q]) == Some(id);
    }
  }

  lemma ConservedBegin(hist: seq<Entry>, routes: map<nat, Phase>, r: nat, e: Entry, started: real)
    requires Conserved(hist, routes) && r !in routes && !Drawn(routes, e.row.id) && !e.row.committed
    ensures Conserved(hist + [e], routes[r := Admitted(e.row.id, started)])
  {
    var routes' := routes[r := Admitted(e.row.id, started)];
    LookupPlus(hist, e, e.row.id);
    forall q | q in routes' ensures Accounted(hist + [e], routes'[q]) {
      if q != r && ReservationOf(routes[q]).Some? {
        LookupPlus(hist, e, ReservationOf(routes[q]).value);
        assert ReservationOf(routes[q]) != Some(e.row.id);
      }
    }
    forall id: nat | Lookup(hist + [e], id).Some? ensures Drawn(routes', id) {
      LookupPlus(hist, e, id);
      if id == e.row.id {
        assert r in routes' && ReservationOf(routes'[r]) == Some(id);
      } else {
        var q :| q in routes && ReservationOf(routes[q]) == Some(id);
        assert q in routes' && ReservationOf(routes'[q]) == Some(id);
      }
    }
  }

  lemma ConservedRefused(hist: seq<Entry>, routes: map<nat, Phase>, r: nat, result: Result)
    requires Conserved(hist, routes) && r !in routes
    ensures Conserved(hist, routes[r := Ended(None, result)])
  {
    var routes' := routes[r := Ended(None, result)];
    forall id: nat | Lookup(hist, id).Some? ensures Drawn(routes', id) {
      var q :| q in routes && ReservationOf(routes[q]) == Some(id);
      assert q in routes' && ReservationOf(routes'[q]) == Some(id);
    }
  }

  lemma ConservedCommit(hist: seq<Entry>, routes: map<nat, Phase>, r: nat)
    requires Conserved(hist, routes) && r in routes && routes[r].Committing?
    ensures var c := routes[r];
            Conserved(CommitEntries(hist, c.id, c.tokens), routes[r := Ended(Some(c.id), Routed(c.tokens, c.attempts))])
  {
    var c := routes[r];
    var hist' := CommitEntries(hist, c.id, c.tokens);
    var routes' := routes[r := Ended(Some(c.id), Routed(c.tokens, c.attempts))];
    LookupCommit(hist, c.id, c.tokens, c.id);
    LookupRowId(hist, c.id);
    forall q | q in routes' ensures Accounted(hist', routes'[q]) {
      if q != r && ReservationOf(routes[q]).Some? {
        var id := ReservationOf(routes[q]).value;
        LookupCommit(hist, c.id, c.tokens, id);
        LookupRowId(hist, id);
        assert id != c.id;
      }
    }
    forall id: nat | Lookup(hist', id).Some? ensures Drawn(routes', id) {
      LookupCommit(hist, c.id, c.tokens, id);
      var q :| q in routes && ReservationOf(routes[q]) == Some(id);
      assert q in routes' && ReservationOf(routes'[q]) == Some(id);
    }
  }

  lemma {:induction false} LookupRowId(hist: seq<Entry>, id: nat)
    ensures Lookup(hist, id).Some? ==> Lookup(hist, id).value.id == id
  {
    if hist != [] {
      LookupRowId(hist[1..], id);
    }
  }

  lemma ConservedRelease(hist: seq<Entry>, routes: map<nat, Phase>, r: nat)
    requires Conserved(hist, routes) && r in routes && routes[r].Releasing?
    ensures var c := routes[r]; Conserved(DeleteEntries(hist, c.id), routes[r := Ended(Some(c.id), c.result)])
  {
    var c := routes[r];
    var hist', routes' := DeleteEntries(hist, c.id), routes[r := Ended(Some(c.id), c.result)];
    LookupDelete(hist, c.id, c.id);
    forall q | q in routes' ensures Accounted(hist', routes'[q]) {
      if q != r && ReservationOf(routes[q]).Some? {
        LookupDelete(hist, c.id, ReservationOf(routes[q]).value);
        assert ReservationOf(routes[q]) != Some(c.id);
      }
    }
    forall id: nat | Lookup(hist', id).Some? ensures Drawn(routes', id) {
      LookupDelete(hist, c.id, id);
      var q :| q in routes && ReservationOf(routes[q]) == Some(id);
      assert q in routes' && ReservationOf(routes'[q]) == Some(id);
    }
  }

  lemma {:induction false} NotYetCommitted(hist: seq<Entry>, id: nat)
    requires UniqueIds(hist) && (Lookup(hist, id).Some? ==> !Lookup(hist, id).value.committed)
    ensures !AlreadyCommitted(hist, id)
  {
    if hist != [] {
      NotYetCommitted(hist[1..], id);
    }
  }

  ghost predicate Inv(cfg: Settings, w: World, start: real) {
    && InTimeOrder(w.calls, start) && Clock(w.calls, start) <= w.wall
    && CommitsOnce(cfg.limits, w.calls)
    && Conserved(Ledger(cfg, w), w.routes)
  }

  /** One more limiter call. */
  lemma CallAppends(cfg: Settings, w: World, start: real, op: Op)
    requires cfg.limits.window >= 0.0 && Inv(cfg, w, start)
    requires TimeOf(op) == None || TimeOf(op) == Some(w.wall)
    requires op.Commit? ==> op.actual >= 0 && !AlreadyCommitted(Ledger(cfg, w), op.id)
    ensures var calls := w.calls + [op];
            && InTimeOrder(calls, start) && Clock(calls, start) <= w.wall
            && CommitsOnce(cfg.limits, calls)
            && History(cfg.limits, calls) == Record(cfg.limits, Ledger(cfg, w), op)
            && Apply(cfg.limits, Table(cfg, w), op, true).1 == Apply(cfg.limits, Rows(Ledger(cfg, w)), op, false).1
  {
    assert (w.calls + [op])[..|w.calls|] == w.calls;
    HistoryIsLog(cfg.limits, w.calls);
    var evicted := EvictionIsInvisible(cfg.limits, w.calls, start);
    evicted := StepAgrees(cfg.limits, Rows(Ledger(cfg, w)), op, evicted, Clock(w.calls, start));
  }

  lemma InvBegin(cfg: Settings, w: World, r: nat, started: real, key: string, estimate: int, id: nat, start: real)
    requires cfg.limits.window >= 0.0 && Enabled(cfg, w, Begin(r, started, key, estimate, id)) && Inv(cfg, w, start)
    ensures Inv(cfg, Next(cfg, w, Begin(r, started, key, estimate, id)), start)
  {
    var hist, op := Ledger(cfg, w), Reserve(key, estimate, w.wall, id);
    CallAppends(cfg, w, start, op);
    if Apply(cfg.limits, Rows(hist), op, false).1.Reserved? {
      ConservedBegin(hist, w.routes, r, Entry(Row(id, key, estimate, w.wall, false), estimate), started);
    } else {
      ConservedRefused(hist, w.routes, r, Next(cfg, w, Begin(r, started, key, estimate, id)).routes[r].result);
    }
  }

  lemma InvCommit(cfg: Settings, w: World, r: nat, start: real)
    requires cfg.limits.window >= 0.0 && Enabled(cfg, w, CommitRow(r)) && Inv(cfg, w, start)
    ensures Inv(cfg, Next(cfg, w, CommitRow(r)), start)
  {
    NotYetCommitted(Ledger(cfg, w), w.routes[r].id);
    CallAppends(cfg, w, start, Commit(w.routes[r].id, w.routes[r].tokens));
    ConservedCommit(Ledger(cfg, w), w.routes, r);
  }

  lemma InvRelease(cfg: Settings, w: World, r: nat, start: real)
    requires cfg.limits.window >= 0.0 && Enabled(cfg, w, ReleaseRow(r)) && Inv(cfg, w, start)
    ensures Inv(cfg, Next(cfg, w, ReleaseRow(r)), start)
  {
    CallAppends(cfg, w, start, Release(w.routes[r].id));
    ConservedRelease(Ledger(cfg, w), w.routes, r);
  }

  lemma InvResume(cfg: Settings, w: World, r: nat, start: real)
    requires Enabled(cfg, w, Resume(r)) && Inv(cfg, w, start)
    ensures Inv(cfg, Next(cfg, w, Resume(r)), start)
  {
    LookupChange(Ledger(cfg, w), w.routes, r, Resumed(cfg, w.breaker, w.mono, w.routes[r].id, w.routes[r].started).1);
  }

  lemma InvFinish(cfg: Settings, w: World, r: nat, ending: Ending, start: real)
    requires Enabled(cfg, w, Finish(r, ending)) && Inv(cfg, w, start)
    ensures Inv(cfg, Next(cfg, w, Finish(r, ending)), start)
  {
    LookupChange(Ledger(cfg, w), w.routes, r, Finished(cfg, w.breaker, w.mono, w.routes[r], ending).1);
  }

  lemma InvStep(cfg: Settings, w: World, e: Event, start: real)
    requires cfg.limits.window >= 0.0 && Enabled(cfg, w, e) && Inv(cfg, w, start)
    ensures Inv(cfg, Next(cfg, w, e), start)
  {
    match e
    case Tick(_, _) =>
    case Begin(r, started, key, estimate, id) => InvBegin(cfg, w, r, started, key, estimate, id, start);
    case Resume(r) => InvResume(cfg, w, r, start);
    case Finish(r, ending) => InvFinish(cfg, w, r, ending, start);
    case CommitRow(r) => InvCommit(cfg, w, r, start);
    case ReleaseRow(r) => InvRelease(cfg, w, r, start);
  }

  lemma {:induction false} AlwaysInv(cfg: Settings, mono: real, wall: real, events: seq<Event>)
    requires cfg.limits.window >= 0.0 && Possible(cfg, Initial(mono, wall), events)
    ensures Inv(cfg, After(cfg, Initial(mono, wall), events), wall)
    decreases |events|
  {
    if events != [] {
      var before := events[..|events| - 1];
      AlwaysInv(cfg, mono, wall, before);
      InvStep(cfg, After(cfg, Initial(mono, wall), before), events[|events| - 1], wall);
    }
  }

  // The theorems

  /** The route that drew an identifier and is still in flight. */
  predicate Holds(w: World, r: nat, id: nat) {
    r in w.routes && !w.routes[r].Ended? && w.routes[r].id == id
  }

  lemma TableRowsInLedger(cfg: Settings, w: World, start: real, row: Row)
    requires cfg.limits.window >= 0.0 && Inv(cfg, w, start) && row in Table(cfg, w)
    ensures Lookup(Ledger(cfg, w), row.id) == Some(row)
  {
    HistoryIsLog(cfg.limits, w.calls);
    var evicted := EvictionIsInvisible(cfg.limits, w.calls, start);
    EvictedRowsExist(Rows(Ledger(cfg, w)), evicted, row);
    LookupFinds(Ledger(cfg, w), row);
  }

  /** In every interleaving, each reserved row of the table belongs to exactly one route in flight. */
  lemma EveryHoldHasOneRoute(cfg: Settings, mono: real, wall: real, events: seq<Event>, row: Row)
    requires cfg.limits.window >= 0.0 && Possible(cfg, Initial(mono, wall), events)
    requires row in Table(cfg, After(cfg, Initial(mono, wall), events)) && !row.committed
    ensures var w := After(cfg, Initial(mono, wall), events);
            && (exists r :: Holds(w, r, row.id))
            && (forall r, s | Holds(w, r, row.id) && Holds(w, s, row.id) :: r == s)
  {
    var w := After(cfg, Initial(mono, wall), events);
    AlwaysInv(cfg, mono, wall, events);
    TableRowsInLedger(cfg, w, wall, row);
    var r :| r in w.routes && ReservationOf(w.routes[r]) == Some(row.id);
    assert Accounted(Ledger(cfg, w), w.routes[r]);
    assert Holds(w, r, row.id);
    forall r, s | Holds(w, r, row.id) && Holds(w, s, row.id) ensures r == s {
      assert ReservationOf(w.routes[r]) == ReservationOf(w.routes[s]) == Some(row.id);
    }
  }

  /** Once no route is running, nothing is held: failed and cancelled requests cost no budget. */
  lemma IdleHoldsNothing(cfg: Settings, mono: real, wall: real, events: seq<Event>, row: Row)
    requires cfg.limits.window >= 0.0 && Possible(cfg, Initial(mono, wall), events)
    requires var w := After(cfg, Initial(mono, wall), events);
             row in Table(cfg, w) && forall r | r in w.routes :: w.routes[r].Ended?
    ensures row.committed
  {
    if !row.committed {
      EveryHoldHasOneRoute(cfg, mono, wall, events, row);
    }
  }

  /** A route that ended well leaves a row with the provider's total in the log, and the same row or, if
      it was evicted, none in the table; one that ended otherwise leaves none in either. */
  lemma EndedRouteSettles(cfg: Settings, mono: real, wall: real, events: seq<Event>, r: nat)
    requires cfg.limits.window >= 0.0 && Possible(cfg, Initial(mono, wall), events)
    requires var w := After(cfg, Initial(mono, wall), events);
             r in w.routes && w.routes[r].Ended? && w.routes[r].reservation.Some?
    ensures var w := After(cfg, Initial(mono, wall), events);
            var id, result := w.routes[r].reservation.value, w.routes[r].result;
            && (forall row | row in Table(cfg, w) && row.id == id ::
                  result.Routed? && row.committed && row.tokens == result.tokens)
            && (result.Routed? <==> Lookup(Ledger(cfg, w), id).Some?)
            && (result.Routed? ==> Lookup(Ledger(cfg, w), id).value.tokens == result.tokens)
  {
    var w := After(cfg, Initial(mono, wall), events);
    AlwaysInv(cfg, mono, wall, events);
    assert Accounted(Ledger(cfg, w), w.routes[r]);
    forall row | row in Table(cfg, w) ensures Lookup(Ledger(cfg, w), row.id) == Some(row) {
      TableRowsInLedger(cfg, w, wall, row);
    }
  }

  /** The rolling-window bound holds however routes interleave. */
  lemma RoutesKeepWindowBound(cfg: Settings, mono: real, wall: real, events: seq<Event>, key: string, t: real)
    requires cfg.limits.window >= 0.0 && Possible(cfg, Initial(mono, wall), events)
    ensures var hist, lo := Ledger(cfg, After(cfg, Initial(mono, wall), events)), t - cfg.limits.window;
            Tokens(hist, key, lo, t)
            <= (if cfg.limits.limit > 0 then cfg.limits.limit else 0) + Overrun(hist, key, lo, t)
  {
    AlwaysInv(cfg, mono, wall, events);
    RollingWindowBound(cfg.limits, After(cfg, Initial(mono, wall), events).calls, wall, key, t);
  }
}
