/** Whole-run properties of the rate limiter. */
module RateLimiterTheorems {
  import opened Scanner
  import opened RateLimiter

  // Lazy eviction is invisible

  lemma {:induction false} SumAfterEviction(rows: seq<Row>, key: string, evicted: real, cutoff: real)
    requires evicted <= cutoff
    ensures Sum(Evict(rows, evicted), key, cutoff) == Sum(rows, key, cutoff)
  {
    if rows != [] {
      SumAfterEviction(rows[1..], key, evicted, cutoff);
      assert ([rows[0]] + Evict(rows[1..], evicted))[1..] == Evict(rows[1..], evicted);
    }
  }

  lemma {:induction false} OldestAfterEviction(rows: seq<Row>, key: string, evicted: real, cutoff: real)
    requires evicted <= cutoff
    ensures Oldest(Evict(rows, evicted), key, cutoff) == Oldest(rows, key, cutoff)
  {
    if rows != [] {
      OldestAfterEviction(rows[1..], key, evicted, cutoff);
      assert ([rows[0]] + Evict(rows[1..], evicted))[1..] == Evict(rows[1..], evicted);
    }
  }

  lemma {:induction false} EvictTwice(rows: seq<Row>, a: real, b: real)
    requires a <= b
    ensures Evict(Evict(rows, a), b) == Evict(rows, b)
  {
    if rows != [] {
      EvictTwice(rows[1..], a, b);
      assert ([rows[0]] + Evict(rows[1..], a))[1..] == Evict(rows[1..], a);
    }
  }

  lemma {:induction false} EvictKeepsNew(rows: seq<Row>, row: Row, cutoff: real)
    requires row.createdAt >= cutoff
    ensures Evict(rows + [row], cutoff) == Evict(rows, cutoff) + [row]
  {
    if rows == [] {
      assert [row][1..] == [];
    } else {
      EvictKeepsNew(rows[1..], row, cutoff);
      assert (rows + [row])[1..] == rows[1..] + [row];
    }
  }

  lemma {:induction false} EvictThenCommit(rows: seq<Row>, id: nat, actual: int, cutoff: real)
    ensures SetCommitted(Evict(rows, cutoff), id, actual) == Evict(SetCommitted(rows, id, actual), cutoff)
  {
    if rows != [] {
      EvictThenCommit(rows[1..], id, actual, cutoff);
      assert SetCommitted(rows, id, actual)[1..] == SetCommitted(rows[1..], id, actual);
      assert ([rows[0]] + Evict(rows[1..], cutoff))[1..] == Evict(rows[1..], cutoff);
    }
  }

  lemma {:induction false} EvictThenDelete(rows: seq<Row>, id: nat, cutoff: real)
    ensures Delete(Evict(rows, cutoff), id) == Evict(Delete(rows, id), cutoff)
  {
    if rows != [] {
      EvictThenDelete(rows[1..], id, cutoff);
      assert ([rows[0]] + Evict(rows[1..], cutoff))[1..] == Evict(rows[1..], cutoff);
      assert ([rows[0]] + Delete(rows[1..], id))[1..] == Delete(rows[1..], id);
    }
  }

  /** One call on the table and on the log, when the table is the log without what was evicted. */
  lemma StepAgrees(cfg: Limits, log: seq<Row>, op: Op, evicted: real, clock: real) returns (evicted': real)
    requires cfg.window >= 0.0 && evicted <= clock - cfg.window
    requires TimeOf(op).Some? ==> clock <= TimeOf(op).value
    ensures var (rows, reply), (log', reply') := Apply(cfg, Evict(log, evicted), op, true), Apply(cfg, log, op, false);
            reply == reply' && rows == Evict(log', evicted')
    ensures evicted' <= (if TimeOf(op).Some? then TimeOf(op).value else clock) - cfg.window
  {
    evicted' := evicted;
    match op
    case Reserve(key, estimate, now, id) =>
      var cutoff := now - cfg.window;
      SumAfterEviction(log, key, evicted, cutoff);
      OldestAfterEviction(log, key, evicted, cutoff);
      if estimate >= 0 && Sum(log, key, cutoff) + estimate <= cfg.limit {
        evicted' := cutoff;
        EvictTwice(log, evicted, cutoff);
        EvictKeepsNew(log, Row(id, key, estimate, now, false), cutoff);
      }
    case Commit(id, actual) => EvictThenCommit(log, id, actual, evicted);
    case Release(id) => EvictThenDelete(log, id, evicted);
    case Usage(key, now) => SumAfterEviction(log, key, evicted, now - cfg.window);
  }

  /** For every sequence of calls in time order, the limiter that deletes old rows gives the same
      answers, and the same retry hints, as one that keeps every row for ever. */
  lemma {:induction false} EvictionIsInvisible(cfg: Limits, ops: seq<Op>, start: real) returns (evicted: real)
    requires cfg.window >= 0.0 && InTimeOrder(ops, start)
    ensures Run(cfg, ops, true).1 == Run(cfg, ops, false).1
    ensures Run(cfg, ops, true).0 == Evict(Run(cfg, ops, false).0, evicted)
    ensures evicted <= Clock(ops, start) - cfg.window
    decreases |ops|
  {
    if ops == [] {
      evicted := start - cfg.window;
    } else {
      var before := ops[..|ops| - 1];
      evicted := EvictionIsInvisible(cfg, before, start);
      evicted := StepAgrees(cfg, Run(cfg, before, false).0, ops[|ops| - 1], evicted, Clock(before, start));
    }
  }

  // The rolling-window bound

  /** A reservation that was ever admitted and not released: its row, whether evicted or not, and what
      was estimated for it. */
  datatype Entry = Entry(row: Row, estimate: int)

  function Rows(hist: seq<Entry>): seq<Row> {
    if hist == [] then [] else [hist[0].row] + Rows(hist[1..])
  }

  function CommitEntries(hist: seq<Entry>, id: nat, actual: int): seq<Entry> {
    if hist == [] then []
    else [hist[0].(row := CommittedRow(hist[0].row, id, actual))] + CommitEntries(hist[1..], id, actual)
  }

  function DeleteEntries(hist: seq<Entry>, id: nat): seq<Entry> {
    if hist == [] then []
    else if hist[0].row.id == id then DeleteEntries(hist[1..], id)
    else [hist[0]] + DeleteEntries(hist[1..], id)
  }

  function Record(cfg: Limits, hist: seq<Entry>, op: Op): seq<Entry> {
    match op
    case Reserve(key, estimate, now, id) =>
      if Apply(cfg, Rows(hist), op, false).1.Reserved?
      then hist + [Entry(Row(id, key, estimate, now, false), estimate)] else hist
    case Commit(id, actual) => CommitEntries(hist, id, actual)
    case Release(id) => DeleteEntries(hist, id)
    case Usage(_, _) => hist
  }

  function History(cfg: Limits, ops: seq<Op>): seq<Entry> {
    if ops == [] then [] else Record(cfg, History(cfg, ops[..|ops| - 1]), ops[|ops| - 1])
  }

  lemma {:induction false} RowsPlus(hist: seq<Entry>, e: Entry)
    ensures Rows(hist + [e]) == Rows(hist) + [e.row]
  {
    if hist == [] {
      assert [e][1..] == [];
    } else {
      RowsPlus(hist[1..], e);
      assert (hist + [e])[1..] == hist[1..] + [e];
    }
  }

  lemma {:induction false} RowsChange(hist: seq<Entry>, id: nat, actual: int)
    ensures Rows(CommitEntries(hist, id, actual)) == SetCommitted(Rows(hist), id, actual)
    ensures Rows(DeleteEntries(hist, id)) == Delete(Rows(hist), id)
  {
    if hist != [] {
      RowsChange(hist[1..], id, actual);
    }
  }

  /** The history is the log of the limiter that never evicts, with the estimates kept. */
  lemma {:induction false} HistoryIsLog(cfg: Limits, ops: seq<Op>)
    ensures Rows(History(cfg, ops)) == Run(cfg, ops, false).0
  {
    if ops != [] {
      var before, op := ops[..|ops| - 1], ops[|ops| - 1];
      HistoryIsLog(cfg, before);
      match op
      case Reserve(key, estimate, now, id) =>
        RowsPlus(History(cfg, before), Entry(Row(id, key, estimate, now, false), estimate));
      case Commit(id, actual) => RowsChange(History(cfg, before), id, actual);
      case Release(id) => RowsChange(History(cfg, before), id, 0);
      case Usage(_, _) =>
    }
  }

  predicate Within(row: Row, key: string, lo: real, hi: real) {
    row.key == key && lo <= row.createdAt <= hi
  }

  /** The tokens of all reservations for `key` made between `lo` and `hi`. */
  function Tokens(hist: seq<Entry>, key: string, lo: real, hi: real): int {
    if hist == [] then 0
    else (if Within(hist[0].row, key, lo, hi) then hist[0].row.tokens else 0) + Tokens(hist[1..], key, lo, hi)
  }

  /** By how much calls cost more than was estimated for them. */
  function Overrun(hist: seq<Entry>, key: string, lo: real, hi: real): int {
    if hist == [] then 0
    else
      var e := hist[0];
      (if Within(e.row, key, lo, hi) && e.row.tokens > e.estimate then e.row.tokens - e.estimate else 0)
      + Overrun(hist[1..], key, lo, hi)
  }

  /** The tokens of the reservations, none counted with more than its estimate. */
  function Covered(hist: seq<Entry>, key: string, lo: real, hi: real): int {
    Tokens(hist, key, lo, hi) - Overrun(hist, key, lo, hi)
  }

  /** No call costs a negative number of tokens, and none is committed twice. */
  predicate CommitsOnce(cfg: Limits, ops: seq<Op>) {
    ops == [] ||
    (&& CommitsOnce(cfg, ops[..|ops| - 1])
     && (ops[|ops| - 1].Commit? ==>
           ops[|ops| - 1].actual >= 0 && !AlreadyCommitted(History(cfg, ops[..|ops| - 1]), ops[|ops| - 1].id)))
  }

  predicate AlreadyCommitted(hist: seq<Entry>, id: nat) {
    hist != [] && ((hist[0].row.id == id && hist[0].row.committed) || AlreadyCommitted(hist[1..], id))
  }

  /** What every history satisfies. */
  predicate Sound(hist: seq<Entry>, clock: real) {
    hist == [] ||
    (&& hist[0].row.tokens >= 0 && hist[0].estimate >= 0 && hist[0].row.createdAt <= clock
     && (!hist[0].row.committed ==> hist[0].row.tokens == hist[0].estimate)
     && Sound(hist[1..], clock))
  }

  lemma {:induction false} SoundLater(hist: seq<Entry>, a: real, b: real)
    requires Sound(hist, a) && a <= b
    ensures Sound(hist, b)
  {
    if hist != [] {
      SoundLater(hist[1..], a, b);
    }
  }

  lemma {:induction false} AddEntry(hist: seq<Entry>, e: Entry, clock: real, key: string, lo: real, hi: real)
    requires Sound(hist, clock) && Sound([e], clock)
    ensures Sound(hist + [e], clock)
    ensures Tokens(hist + [e], key, lo, hi)
         == Tokens(hist, key, lo, hi) + if Within(e.row, key, lo, hi) then e.row.tokens else 0
    ensures e.row.tokens == e.estimate ==> Overrun(hist + [e], key, lo, hi) == Overrun(hist, key, lo, hi)
  {
    if hist == [] {
      assert [e][1..] == [] && hist + [e] == [e];
    } else {
      AddEntry(hist[1..], e, clock, key, lo, hi);
      assert (hist + [e])[1..] == hist[1..] + [e];
    }
  }

  lemma {:induction false} CommitCovers(hist: seq<Entry>, id: nat, actual: int, clock: real,
                                        key: string, lo: real, hi: real)
    requires Sound(hist, clock) && actual >= 0 && !AlreadyCommitted(hist, id)
    ensures Sound(CommitEntries(hist, id, actual), clock)
    ensures Covered(CommitEntries(hist, id, actual), key, lo, hi) <= Covered(hist, key, lo, hi)
  {
    if hist != [] {
      CommitCovers(hist[1..], id, actual, clock, key, lo, hi);
    }
  }

  lemma {:induction false} DeleteCovers(hist: seq<Entry>, id: nat, clock: real, key: string, lo: real, hi: real)
    requires Sound(hist, clock)
    ensures Sound(DeleteEntries(hist, id), clock)
    ensures Covered(DeleteEntries(hist, id), key, lo, hi) <= Covered(hist, key, lo, hi)
  {
    if hist != [] {
      DeleteCovers(hist[1..], id, clock, key, lo, hi);
    }
  }

  /** What the limiter counts at `now` includes every reservation made since `lo`. */
  lemma {:induction false} SumCountsAll(hist: seq<Entry>, key: string, lo: real, hi: real, cutoff: real, clock: real)
    requires Sound(hist, clock) && cutoff <= lo && clock <= hi
    ensures 0 <= Overrun(hist, key, lo, hi)
    ensures Tokens(hist, key, lo, hi) <= Sum(Rows(hist), key, cutoff)
  {
    if hist != [] {
      SumCountsAll(hist[1..], key, lo, hi, cutoff, clock);
      assert Rows(hist)[1..] == Rows(hist[1..]);
    }
  }

  lemma {:induction false} CoveredBound(cfg: Limits, ops: seq<Op>, start: real, key: string, t: real)
    requires cfg.window >= 0.0 && InTimeOrder(ops, start) && CommitsOnce(cfg, ops)
    ensures Sound(History(cfg, ops), Clock(ops, start))
    ensures Covered(History(cfg, ops), key, t - cfg.window, t) <= if cfg.limit > 0 then cfg.limit else 0
    decreases |ops|
  {
    if ops != [] {
      var before, op := ops[..|ops| - 1], ops[|ops| - 1];
      var hist, clock, lo := History(cfg, before), Clock(ops, start), t - cfg.window;
      CoveredBound(cfg, before, start, key, t);
      SoundLater(hist, Clock(before, start), clock);
      match op
      case Reserve(k, estimate, now, id) =>
        if Apply(cfg, Rows(hist), op, false).1.Reserved? {
          var e := Entry(Row(id, k, estimate, now, false), estimate);
          assert [e][1..] == [];
          AddEntry(hist, e, clock, key, lo, t);
          if Within(e.row, key, lo, t) {
            SumCountsAll(hist, key, lo, t, now - cfg.window, clock);
          }
        }
      case Commit(id, actual) => CommitCovers(hist, id, actual, clock, key, lo, t);
      case Release(id) => DeleteCovers(hist, id, clock, key, lo, t);
      case Usage(_, _) =>
    }
  }

  /** Over any run, and for any window of the configured length, the tokens of all the reservations ever
      made in it, evicted or not, exceed the limit by no more than what calls cost over their estimates. */
  lemma RollingWindowBound(cfg: Limits, ops: seq<Op>, start: real, key: string, t: real)
    requires cfg.window >= 0.0 && InTimeOrder(ops, start) && CommitsOnce(cfg, ops)
    ensures var hist, lo := History(cfg, ops), t - cfg.window;
            Tokens(hist, key, lo, t) <= (if cfg.limit > 0 then cfg.limit else 0) + Overrun(hist, key, lo, t)
  {
    CoveredBound(cfg, ops, start, key, t);
  }

  // Admission

  predicate Dated(hist: seq<Entry>, clock: real) {
    hist == [] || (hist[0].row.createdAt <= clock && Dated(hist[1..], clock))
  }

  lemma {:induction false} DatedPlus(hist: seq<Entry>, e: Entry, clock: real, now: real)
    requires Dated(hist, clock) && clock <= now && e.row.createdAt <= now
    ensures Dated(hist, now) && Dated(hist + [e], now)
  {
    if hist == [] {
      assert hist + [e] == [e] && [e][1..] == [];
    } else {
      DatedPlus(hist[1..], e, clock, now);
      assert (hist + [e])[1..] == hist[1..] + [e];
    }
  }

  lemma {:induction false} DatedChange(hist: seq<Entry>, id: nat, actual: int, clock: real)
    requires Dated(hist, clock)
    ensures Dated(CommitEntries(hist, id, actual), clock) && Dated(DeleteEntries(hist, id), clock)
  {
    if hist != [] {
      DatedChange(hist[1..], id, actual, clock);
    }
  }

  lemma {:induction false} HistoryDated(cfg: Limits, ops: seq<Op>, start: real)
    requires InTimeOrder(ops, start)
    ensures Dated(History(cfg, ops), Clock(ops, start))
    decreases |ops|
  {
    if ops != [] {
      var before, op := ops[..|ops| - 1], ops[|ops| - 1];
      var clock := Clock(ops, start);
      HistoryDated(cfg, before, start);
      DatedPlus(History(cfg, before), Entry(Row(0, "", 0, clock, false), 0), Clock(before, start), clock);
      match op
      case Reserve(key, estimate, now, id) =>
        var e := Entry(Row(id, key, estimate, now, false), estimate);
        DatedPlus(History(cfg, before), e, Clock(before, start), clock);
      case Commit(id, actual) => DatedChange(History(cfg, before), id, actual, clock);
      case Release(id) => DatedChange(History(cfg, before), id, 0, clock);
      case Usage(_, _) =>
    }
  }

  lemma {:induction false} SumIsTokens(hist: seq<Entry>, key: string, cutoff: real, clock: real, now: real)
    requires Dated(hist, clock) && clock <= now
    ensures Sum(Rows(hist), key, cutoff) == Tokens(hist, key, cutoff, now)
  {
    if hist != [] {
      SumIsTokens(hist[1..], key, cutoff, clock, now);
      assert Rows(hist)[1..] == Rows(hist[1..]);
    }
  }

  lemma CountsTheWindow(cfg: Limits, ops: seq<Op>, start: real, key: string, now: real)
    requires cfg.window >= 0.0 && InTimeOrder(ops, start) && Clock(ops, start) <= now
    ensures Sum(Run(cfg, ops, true).0, key, now - cfg.window)
         == Tokens(History(cfg, ops), key, now - cfg.window, now)
  {
    var evicted := EvictionIsInvisible(cfg, ops, start);
    HistoryIsLog(cfg, ops);
    HistoryDated(cfg, ops, start);
    hide Run, Sum, Evict, History, Tokens;
    SumAfterEviction(Rows(History(cfg, ops)), key, evicted, now - cfg.window);
    SumIsTokens(History(cfg, ops), key, now - cfg.window, Clock(ops, start), now);
  }

  /** At every moment, what counts is the tokens of all reservations of the last window that were not
      released, and a request is admitted if and only if it fits into what they leave of the limit. */
  lemma AdmitsExactlyWhatFits(cfg: Limits, ops: seq<Op>, start: real, key: string, estimate: int, now: real, id: nat)
    requires cfg.window >= 0.0 && InTimeOrder(ops, start) && Clock(ops, start) <= now
    ensures var rows, used := Run(cfg, ops, true).0, Tokens(History(cfg, ops), key, now - cfg.window, now);
            var reply := Apply(cfg, rows, Reserve(key, estimate, now, id), true).1;
            && Apply(cfg, rows, Usage(key, now), true).1 == Used(used)
            && (reply.Reserved? <==> estimate >= 0 && used + estimate <= cfg.limit)
            && (reply.Exceeded? <==> estimate >= 0 && used + estimate > cfg.limit)
            && (reply.Exceeded? ==> reply.used == used && reply.limit == cfg.limit)
  {
    hide Run, Sum, Evict, History, Tokens;
    CountsTheWindow(cfg, ops, start, key, now);
  }

  // The retry hint

  lemma {:induction false} OldestIsOldest(rows: seq<Row>, key: string, a: real, b: real)
    requires a <= b
    ensures var oldest := Oldest(rows, key, a);
            && (oldest.Some? ==> oldest.value >= a)
            && (oldest.Some? && oldest.value >= b ==>
                  Sum(rows, key, b) == Sum(rows, key, a) && Oldest(rows, key, b) == oldest)
            && (oldest == None ==> Sum(rows, key, b) == Sum(rows, key, a) == 0 && Oldest(rows, key, b) == None)
            && (Oldest(rows, key, b).Some? ==> Oldest(rows, key, b).value >= b)
  {
    if rows != [] {
      OldestIsOldest(rows[1..], key, a, b);
    }
  }

  /** At `moment` the row made at `oldest`, and any other as old, is out of the window. */
  predicate GoneAt(rows: seq<Row>, key: string, window: real, oldest: real, moment: real) {
    match Oldest(rows, key, moment - window)
    case None => true
    case Some(row) => row > oldest
  }

  ghost predicate GoneAfter(rows: seq<Row>, key: string, window: real, oldest: real, moment: real) {
    forall later: real | later > moment :: GoneAt(rows, key, window, oldest, later)
  }

  /** After a denial with rows in the window, and with no further calls, usage stays what it was up to
      and including the unrounded hint, whatever the timestamps. */
  lemma UsageStaysUntilHint(cfg: Limits, rows: seq<Row>, key: string, now: real, later: real)
    requires Oldest(rows, key, now - cfg.window).Some?
    requires now <= later <= now + RetryAfter(Oldest(rows, key, now - cfg.window), cfg.window, now)
    ensures Sum(rows, key, later - cfg.window) == Sum(rows, key, now - cfg.window)
    ensures Oldest(rows, key, later - cfg.window) == Oldest(rows, key, now - cfg.window)
  {
    OldestIsOldest(rows, key, now - cfg.window, later - cfg.window);
  }

  lemma GoneMeans(rows: seq<Row>, key: string, window: real, now: real, moment: real)
    requires Oldest(rows, key, now - window).Some? && now <= moment
    ensures var oldest := Oldest(rows, key, now - window).value;
            GoneAt(rows, key, window, oldest, moment) <==> oldest < moment - window
  {
    OldestIsOldest(rows, key, now - window, moment - window);
  }

  /** At every time past the hint the oldest row is out of the window, if and only if that row does not
      carry the timestamp 0 or is at the very edge of the window already. */
  lemma HintIsThreshold(cfg: Limits, rows: seq<Row>, key: string, now: real)
    requires Oldest(rows, key, now - cfg.window).Some?
    ensures forall estimate: int, id: nat ::
              var reply := Apply(cfg, rows, Reserve(key, estimate, now, id), true).1;
              reply.Exceeded? ==>
                reply.retryAfter == Round3(RetryAfter(Oldest(rows, key, now - cfg.window), cfg.window, now))
    ensures var oldest := Oldest(rows, key, now - cfg.window);
            var hint := RetryAfter(oldest, cfg.window, now);
            && hint >= 0.0
            && (GoneAfter(rows, key, cfg.window, oldest.value, now + hint) <==>
                oldest.value != 0.0 || now >= cfg.window)
  {
    var oldest := Oldest(rows, key, now - cfg.window).value;
    var moment := now + RetryAfter(Some(oldest), cfg.window, now);
    OldestIsOldest(rows, key, now - cfg.window, now - cfg.window);
    if oldest != 0.0 || now >= cfg.window {
      forall later: real | later > moment ensures GoneAt(rows, key, cfg.window, oldest, later) {
        GoneMeans(rows, key, cfg.window, now, later);
      }
    } else {
      GoneMeans(rows, key, cfg.window, now, cfg.window);
      assert !GoneAt(rows, key, cfg.window, oldest, cfg.window);
    }
  }

  /** Rounding gives a thousandth, at most half a thousandth away; of two equally near, the even one. */
  lemma RoundsToThousandth(x: real) returns (n: int)
    ensures Round3(x) == n as real / 1000.0
    ensures -0.0005 <= Round3(x) - x <= 0.0005
    ensures Round3(x) - x == 0.0005 || Round3(x) - x == -0.0005 ==> n % 2 == 0
  {
    var y := x * 1000.0;
    var part := y - y.Floor as real;
    n := if part < 0.5 || (part == 0.5 && y.Floor % 2 == 0) then y.Floor else y.Floor + 1;
    assert -0.5 <= n as real - y <= 0.5;
  }

  /** A reservation adds one row, with the identifier that it returns, and deletes only rows that are out of
      the window. */
  lemma ReservationAddsRow(cfg: Limits, rows: seq<Row>, key: string, estimate: int, now: real, id: nat, row: Row)
    requires Apply(cfg, rows, Reserve(key, estimate, now, id), true).1.Reserved?
    ensures var (rows', reply) := Apply(cfg, rows, Reserve(key, estimate, now, id), true);
            && rows' != [] && rows'[|rows'| - 1] == Row(reply.id, key, estimate, now, false) && reply.id == id
            && (row in rows'[..|rows'| - 1] <==> row in rows && row.createdAt >= now - cfg.window)
  {
    var (rows', reply) := Apply(cfg, rows, Reserve(key, estimate, now, id), true);
    assert rows'[..|rows'| - 1] == Evict(rows, now - cfg.window);
    EvictedIff(rows, now - cfg.window, row);
  }

  lemma {:induction false} EvictedIff(rows: seq<Row>, cutoff: real, row: Row)
    ensures row in Evict(rows, cutoff) <==> row in rows && row.createdAt >= cutoff
  {
    if rows != [] {
      EvictedIff(rows[1..], cutoff, row);
      assert row in rows <==> row == rows[0] || row in rows[1..];
    }
  }

  /** The `Retry-After` header of the HTTP layer. */
  function Header(hint: real): int {
    Round3(hint).Floor + 1
  }

  /** The header is strictly past the unrounded hint, by no more than a second and the rounding. */
  lemma HeaderIsPastHint(hint: real)
    requires hint >= 0.0
    ensures hint < Header(hint) as real <= hint + 1.0005
  {
    hide Round3;
    var n := RoundsToThousandth(hint);
    var k := Round3(hint).Floor;
    assert n as real / 1000.0 < (k + 1) as real;
    assert n < 1000 * (k + 1);
  }
}
